/** The picker view's mutable state: the laid-out rectangles, the point
    where the current touch started, and the four colour channels, with the
    methods that lay the panels out and dispatch touch events to them. */
module ColorPicker {
  import opened Numerics
  import opened Geometry
  import opened Conversions
  import opened Layout

  datatype Action = Down | Move | Up | OtherAction

  /** A touch event: its action and its (float) coordinates. */
  datatype MotionEvent = MotionEvent(action: Action, x: real, y: real)

  /** The panel a gesture drives. */
  datatype Panel = HuePanel | SatValPanel | AlphaPanel | NoPanel

  /** The panel whose rectangle holds the start of the gesture, tried in the
      order hue strip, saturation/value square, alpha strip. */
  function PanelAt(start: Point, hueRect: Rect, satValRect: Rect, alphaRect: Option<Rect>): Panel {
    if hueRect.Contains(start.x, start.y) then HuePanel
    else if satValRect.Contains(start.x, start.y) then SatValPanel
    else if alphaRect.Some? && alphaRect.value.Contains(start.x, start.y) then AlphaPanel
    else NoPanel
  }

  /** The alpha strip that a layout leaves behind: a fresh one when the strip
      is shown, otherwise whatever an earlier layout left. */
  function AlphaRectAfterLayout(previous: Option<Rect>, d: Rect, dims: PanelDims, showAlpha: bool): Option<Rect> {
    if showAlpha then Some(AlphaRect(d, dims)) else previous
  }

  /** On panels freshly laid out from one drawing rectangle, the order in
      which the panels are tried does not matter: a gesture drives a panel
      exactly when that panel contains its start. */
  lemma {:induction false} PanelAtLaidOut(start: Point, d: Rect, dims: PanelDims, showAlpha: bool)
    ensures var hue, sv := HueRect(d, dims, showAlpha), SatValRect(d, dims, showAlpha);
      var alpha := AlphaRectAfterLayout(None, d, dims, showAlpha);
      var p := PanelAt(start, hue, sv, alpha);
      (p == HuePanel <==> hue.Contains(start.x, start.y))
      && (p == SatValPanel <==> sv.Contains(start.x, start.y))
      && (p == AlphaPanel <==> showAlpha && AlphaRect(d, dims).Contains(start.x, start.y))
  {
    PanelsStacked(d, dims, showAlpha, start.x, start.y);
  }

  /** Hiding the alpha strip does not retire its rectangle, and dispatch does
      not consult the visibility flag: after a layout with the strip hidden,
      a touch starting in whatever strip an earlier layout left, and in
      neither of the new panels, is sent to the alpha channel. */
  lemma StaleAlphaRectDispatches(start: Point, previous: Rect, d: Rect, dims: PanelDims)
    ensures var hue, sv := HueRect(d, dims, false), SatValRect(d, dims, false);
      var alpha := AlphaRectAfterLayout(Some(previous), d, dims, false);
      PanelAt(start, hue, sv, alpha) == AlphaPanel
      <==> previous.Contains(start.x, start.y)
           && !hue.Contains(start.x, start.y) && !sv.Contains(start.x, start.y)
  {
  }

  /** A concrete case of the above: a view laid out 200 px wide with the
      strip, then 100 px wide without it, still sends a touch that starts in
      its right-hand padding, on the rows of the old strip, to the alpha
      channel. */
  lemma StaleAlphaRectStillDispatches()
    ensures var dims, pad := PanelDims(10, 10, 10), Paddings(6, 6, 6, 6);
      var before := DrawingRect(200, 260, pad);
      var after := DrawingRect(100, 260, pad);
      var alpha := AlphaRectAfterLayout(AlphaRectAfterLayout(None, before, dims, true), after, dims, false);
      alpha == Some(Rect(7, 245, 193, 253))
      && !after.Contains(95, 250)
      && PanelAt(Point(95, 250), HueRect(after, dims, false), SatValRect(after, dims, false), alpha) == AlphaPanel
  {
  }

  /** The ranges the colour channels keep: hue in [0, 360], saturation and
      value in [0, 1], alpha in [0, 255]. */
  predicate ChannelsInRange(hue: real, sat: real, val: real, alpha: int) {
    0.0 <= hue <= 360.0 && 0.0 <= sat <= 1.0 && 0.0 <= val <= 1.0 && 0 <= alpha <= 255
  }

  class ColorPickerView {
    /** Panel sizes in pixels, fixed at creation. */
    const dims: PanelDims
    /** The minimum padding on every side, in pixels. */
    const requiredPadding: int
    /** The padding set on the view by its user. */
    const rawPadding: Paddings

    var showAlphaPanel: bool

    /** The rectangles are null until the first layout. */
    var drawingRect: Option<Rect>
    var satValRect: Option<Rect>
    var hueRect: Option<Rect>
    var alphaRect: Option<Rect>

    var startTouchPoint: Option<Point>

    var hue: real
    var sat: real
    var val: real
    var alpha: int

    predicate LaidOut()
      reads this
    {
      satValRect.Some? && hueRect.Some?
    }

    /** The alpha strip is narrow enough for `x * 255` to stay a Java int. */
    predicate AlphaScaleFits()
      reads this
    {
      alphaRect.Some? ==> ScaleFitsInt32(alphaRect.value.Width())
    }

    predicate ColorInRange()
      reads this
    {
      ChannelsInRange(hue, sat, val, alpha)
    }

    /** A new view: opaque, hue 360, saturation and value 0, alpha strip shown,
        nothing laid out and no touch in progress. */
    constructor (dims: PanelDims, requiredPadding: int, rawPadding: Paddings)
      ensures this.dims == dims && this.requiredPadding == requiredPadding && this.rawPadding == rawPadding
      ensures showAlphaPanel
      ensures drawingRect.None? && satValRect.None? && hueRect.None? && alphaRect.None?
      ensures startTouchPoint.None?
      ensures hue == 360.0 && sat == 0.0 && val == 0.0 && alpha == 0xff
      ensures ColorInRange()
    {
      this.dims := dims;
      this.requiredPadding := requiredPadding;
      this.rawPadding := rawPadding;
      showAlphaPanel := true;
      drawingRect, satValRect, hueRect, alphaRect := None, None, None, None;
      startTouchPoint := None;
      alpha, hue, sat, val := 0xff, 360.0, 0.0, 0.0;
    }

    /** `setAlphaSliderVisible`: only the flag changes; the panels move at the
        next layout. */
    method SetAlphaSliderVisible(visible: bool)
      modifies this`showAlphaPanel
      ensures showAlphaPanel == visible
    {
      if showAlphaPanel != visible {
        showAlphaPanel := visible;
      }
    }

    method SetUpSatValRect()
      requires drawingRect.Some?
      modifies this`satValRect
      ensures satValRect == Some(SatValRect(drawingRect.value, dims, showAlphaPanel))
    {
      var d := drawingRect.value;
      var left := d.left + BORDER_WIDTH_PX;
      var top := d.top + BORDER_WIDTH_PX;
      var bottom := d.bottom - BORDER_WIDTH_PX - dims.spacing - dims.hueHeight;
      var right := d.right - BORDER_WIDTH_PX;
      if showAlphaPanel {
        bottom := bottom - (dims.alphaHeight + dims.spacing);
      }
      satValRect := Some(Rect(left, top, right, bottom));
    }

    method SetUpHueRect()
      requires drawingRect.Some?
      modifies this`hueRect
      ensures hueRect == Some(HueRect(drawingRect.value, dims, showAlphaPanel))
    {
      var d := drawingRect.value;
      var left := d.left + BORDER_WIDTH_PX;
      var top := d.bottom - dims.hueHeight + BORDER_WIDTH_PX;
      var bottom := d.bottom - BORDER_WIDTH_PX;
      var right := d.right - BORDER_WIDTH_PX;
      if showAlphaPanel {
        top := top - (dims.alphaHeight + dims.spacing);
        bottom := bottom - (dims.alphaHeight + dims.spacing);
      }
      hueRect := Some(Rect(left, top, right, bottom));
    }

    /** With the alpha strip hidden this returns at once and the previous
        alpha rectangle, if any, stays. */
    method SetUpAlphaRect()
      requires drawingRect.Some?
      modifies this`alphaRect
      ensures alphaRect == AlphaRectAfterLayout(old(alphaRect), drawingRect.value, dims, showAlphaPanel)
      ensures !showAlphaPanel ==> alphaRect == old(alphaRect)
    {
      if !showAlphaPanel {
        return;
      }
      var d := drawingRect.value;
      var left := d.left + BORDER_WIDTH_PX;
      var top := d.bottom - dims.alphaHeight + BORDER_WIDTH_PX;
      var bottom := d.bottom - BORDER_WIDTH_PX;
      var right := d.right - BORDER_WIDTH_PX;
      alphaRect := Some(Rect(left, top, right, bottom));
    }

    /** `onSizeChanged(w, h)`: the drawing rectangle is the new size less the
        padding, and the three panels are laid out inside it. */
    method OnSizeChanged(w: int, h: int)
      modifies this`drawingRect, this`satValRect, this`hueRect, this`alphaRect
      ensures drawingRect == Some(DrawingRect(w, h, Effective(rawPadding, requiredPadding)))
      ensures satValRect == Some(SatValRect(drawingRect.value, dims, showAlphaPanel))
      ensures hueRect == Some(HueRect(drawingRect.value, dims, showAlphaPanel))
      ensures alphaRect == AlphaRectAfterLayout(old(alphaRect), drawingRect.value, dims, showAlphaPanel)
      ensures LaidOut()
    {
      var e := Effective(rawPadding, requiredPadding);
      drawingRect := Some(Rect(e.left, e.top, w - e.right, h - e.bottom));
      SetUpSatValRect();
      SetUpHueRect();
      SetUpAlphaRect();
    }

    /** `moveTrackersIfNeeded`: with no touch in progress nothing changes;
        otherwise the panel holding the start of the touch takes its channel
        (or channels) from the event's position, and every other channel is
        left alone. The result says whether a channel was set. */
    method MoveTrackersIfNeeded(ev: MotionEvent) returns (update: bool)
      requires startTouchPoint.Some? ==> LaidOut()
      requires AlphaScaleFits()
      modifies this`hue, this`sat, this`val, this`alpha
      ensures startTouchPoint.None? ==> !update
      ensures startTouchPoint.Some? ==>
        var p := PanelAt(startTouchPoint.value, hueRect.value, satValRect.value, alphaRect);
        update == (p != NoPanel)
        && hue == (if p == HuePanel then PointToHue(ev.x, hueRect.value) else old(hue))
        && sat == (if p == SatValPanel then PointToSatVal(ev.x, ev.y, satValRect.value).sat else old(sat))
        && val == (if p == SatValPanel then PointToSatVal(ev.x, ev.y, satValRect.value).val else old(val))
        && alpha == (if p == AlphaPanel then PointToAlpha(FloatToInt(ev.x), alphaRect.value) else old(alpha))
      ensures !update ==> hue == old(hue) && sat == old(sat) && val == old(val) && alpha == old(alpha)
      ensures old(ColorInRange()) ==> ColorInRange()
    {
      if startTouchPoint.None? {
        return false;
      }
      update := false;
      var startX := startTouchPoint.value.x;
      var startY := startTouchPoint.value.y;
      if hueRect.value.Contains(startX, startY) {
        hue := PointToHue(ev.x, hueRect.value);
        update := true;
      } else if satValRect.value.Contains(startX, startY) {
        var result := PointToSatVal(ev.x, ev.y, satValRect.value);
        sat := result.sat;
        val := result.val;
        update := true;
      } else if alphaRect.Some? && alphaRect.value.Contains(startX, startY) {
        alpha := PointToAlpha(FloatToInt(ev.x), alphaRect.value);
        update := true;
      }
    }

    /** `onTouchEvent`: DOWN records where the touch started (the coordinates
        cast to int) and dispatches; MOVE dispatches; UP forgets the start
        before dispatching, so it never changes the colour; any other action
        does nothing. The result says whether the colour was updated (when it
        is, the listener is told and the view redrawn). */
    method OnTouchEvent(ev: MotionEvent) returns (update: bool)
      requires ev.action == Down || (ev.action == Move && startTouchPoint.Some?) ==> LaidOut()
      requires AlphaScaleFits()
      modifies this`startTouchPoint, this`hue, this`sat, this`val, this`alpha
      ensures startTouchPoint == match ev.action
        case Down => Some(Point(FloatToInt(ev.x), FloatToInt(ev.y)))
        case Up => None
        case _ => old(startTouchPoint)
      ensures ev.action == Up || ev.action == OtherAction ==>
        !update && hue == old(hue) && sat == old(sat) && val == old(val) && alpha == old(alpha)
      ensures ev.action == Move && old(startTouchPoint).None? ==>
        !update && hue == old(hue) && sat == old(sat) && val == old(val) && alpha == old(alpha)
      ensures (ev.action == Down || ev.action == Move) && startTouchPoint.Some? ==>
        var p := PanelAt(startTouchPoint.value, hueRect.value, satValRect.value, alphaRect);
        update == (p != NoPanel)
        && hue == (if p == HuePanel then PointToHue(ev.x, hueRect.value) else old(hue))
        && sat == (if p == SatValPanel then PointToSatVal(ev.x, ev.y, satValRect.value).sat else old(sat))
        && val == (if p == SatValPanel then PointToSatVal(ev.x, ev.y, satValRect.value).val else old(val))
        && alpha == (if p == AlphaPanel then PointToAlpha(FloatToInt(ev.x), alphaRect.value) else old(alpha))
      ensures old(ColorInRange()) ==> ColorInRange()
    {
      update := false;
      match ev.action {
        case Down =>
          startTouchPoint := Some(Point(FloatToInt(ev.x), FloatToInt(ev.y)));
          update := MoveTrackersIfNeeded(ev);
        case Move =>
          update := MoveTrackersIfNeeded(ev);
        case Up =>
          startTouchPoint := None;
          update := MoveTrackersIfNeeded(ev);
        case OtherAction =>
      }
    }
  }
}
