# ColorPickerView geometry and touch dispatch, in Dafny

This project models the part of `ColorPickerView` (an Android HSV(A) colour
picker widget) that is not drawing code. That part has three pieces:

- **Sizing and layout.** `getPadding*` raises each padding to a required
  minimum. `onMeasure` chooses the content size from the parent's measure
  specs. `onSizeChanged` computes the drawing rectangle, and
  `setUpSatValRect`, `setUpHueRect` and `setUpAlphaRect` stack three panels
  inside it: the saturation/value square, the hue strip and the optional
  alpha strip.
- **Position-to-channel conversions.** `pointToAlpha` uses Java ints.
  `pointToHue` and `pointToSatVal` use floats, idealised here as `real`.
  `hueToPoint`, `satValToPoint` and `alphaToPoint` map a channel back to a
  tracker position.
- **Touch dispatch.** `onTouchEvent` and `moveTrackersIfNeeded` are modelled
  as methods of a class. The class holds the laid-out rectangles, the start
  of the current touch and the four channels `hue`, `sat`, `val` and `alpha`.

Modules, one per concern:

- `numerics.dfy` (`Numerics`): Java int bounds, Java's truncating `/`, and
  the `(int)` cast of a float. The cast truncates toward zero and saturates
  at the ends of the int range.
- `geometry.dfy` (`Geometry`): `Point` and `Rect`. `Rect.Contains` follows
  the toolkit's semantics: half-open on both axes, and false for an empty
  rectangle.
- `conversions.dfy` (`Conversions`): the `pointTo*` and `*ToPoint`
  conversions.
- `layout.dfy` (`Layout`): padding, the `onMeasure` table, the drawing
  rectangle and the three panel rectangles, as functions.
- `color_picker_view.dfy` (`ColorPicker`): the `ColorPickerView` class. Its
  layout and touch methods change the fields in place, under `modifies`
  frames.

Two facts about the code that the model keeps:

- The alpha conversion truncates (`x * 0xff / width` on ints); it does not
  round. `PointToAlphaTruncates` states this for every position, and
  `PointToAlphaExamples` gives a case where rounding would differ.
- The channels and the touch start are fields of the view, so the model
  keeps them as fields of a class.

Some behaviours of the code are proved rather than assumed:

- When neither measure spec is EXACTLY, the last case of the `onMeasure`
  table (neither the needed width nor the needed height fits) can never be
  taken. `MeasureNeitherExactly` proves this.
- When the alpha strip is hidden, `setUpAlphaRect` keeps the old alpha
  rectangle, and `moveTrackersIfNeeded` never checks `showAlphaPanel`. So a
  strip left over from an earlier layout still receives touches.
  `StaleAlphaRectDispatches` states this in general, and
  `StaleAlphaRectStillDispatches` gives a concrete case.

## Model

| member | source | states |
|---|---|---|
| `Numerics.TruncDiv` | ColorPicker/app/src/main/java/com/demo/colorpicker/lib/ColorPickerView.java:460 | Java's int `/`: the magnitude of the quotient is the floor of the magnitudes, and its sign is the product of the operands' signs (truncation toward zero) |
| `Numerics.FloatToInt` | ColorPicker/app/src/main/java/com/demo/colorpicker/lib/ColorPickerView.java:470 | the `(int)` cast of a touch coordinate always gives a Java int: it saturates at INT_MIN and INT_MAX and truncates toward zero in between |
| `Numerics.FloatToIntBetween` | ColorPicker/app/src/main/java/com/demo/colorpicker/lib/ColorPickerView.java:367 | a float that lies between two int edges still lies between them after the cast |
| `Geometry.ContainsImpliesNonEmpty` | ColorPicker/app/src/main/java/com/demo/colorpicker/lib/ColorPickerView.java:505-516 | a rectangle that contains the touch start has positive width and height |
| `Conversions.PointToAlpha` | ColorPicker/app/src/main/java/com/demo/colorpicker/lib/ColorPickerView.java:447-461 | for a non-zero strip width whose `width * 255` fits in an int, the result is in [0, 255]; it is 255 left of the strip and at its left edge, and 0 at or right of its right edge |
| `Conversions.PointToAlphaNonIncreasing` | ColorPicker/app/src/main/java/com/demo/colorpicker/lib/ColorPickerView.java:452-460 | moving right never increases alpha |
| `Conversions.PointToAlphaTruncates` | ColorPicker/app/src/main/java/com/demo/colorpicker/lib/ColorPickerView.java:460 | inside the strip, `255 - alpha` is the largest k with `k * width <= offset * 255`: the scaling truncates and does not round |
| `Conversions.PointToAlphaExamples` | ColorPicker/app/src/main/java/com/demo/colorpicker/lib/ColorPickerView.java:447-461 | concrete values: one pixel into a 100 px strip gives 253 (the exact 252.45 would round to 252), the middle of a 2 px strip gives 128, and the clamps give 255 and 0 |
| `Conversions.PointToHue` | ColorPicker/app/src/main/java/com/demo/colorpicker/lib/ColorPickerView.java:430-445 | for a non-zero strip width, the hue is in [0, 360]; it is 360 at or left of the left edge and 0 at or right of the right edge |
| `Conversions.PointToHueNonIncreasing` | ColorPicker/app/src/main/java/com/demo/colorpicker/lib/ColorPickerView.java:436-444 | moving right along the hue strip never increases the hue |
| `Conversions.PointToSatVal` | ColorPicker/app/src/main/java/com/demo/colorpicker/lib/ColorPickerView.java:400-428 | both channels are in [0, 1]; saturation is 0 left of the square and 1 at or past its right edge; value is 1 above the square and 0 at or below its bottom edge |
| `Conversions.PointToSatValMonotone` | ColorPicker/app/src/main/java/com/demo/colorpicker/lib/ColorPickerView.java:408-425 | saturation depends only on x and never decreases to the right; value depends only on y and never increases downwards |
| `Conversions.HueToPoint` | ColorPicker/app/src/main/java/com/demo/colorpicker/lib/ColorPickerView.java:360-371 | for a hue in [0, 360], the tracker's x lies between the strip's left and right edges, and its y is the strip's top |
| `Conversions.SatValToPoint` | ColorPicker/app/src/main/java/com/demo/colorpicker/lib/ColorPickerView.java:373-385 | for saturation and value in [0, 1], the tracker lies in the closed square |
| `Conversions.AlphaToPoint` | ColorPicker/app/src/main/java/com/demo/colorpicker/lib/ColorPickerView.java:387-398 | for alpha in [0, 255], the tracker's x lies between the strip's left and right edges, and its y is the strip's top |
| `Layout.Padding` | ColorPicker/app/src/main/java/com/demo/colorpicker/lib/ColorPickerView.java:625-643 | each effective padding is at least the required padding and at least the padding set on the view, and it is one of the two |
| `Layout.Effective` | ColorPicker/app/src/main/java/com/demo/colorpicker/lib/ColorPickerView.java:625-643 | all four effective paddings are at least the required minimum and at least the raw padding |
| `Layout.StripsHeight` | ColorPicker/app/src/main/java/com/demo/colorpicker/lib/ColorPickerView.java:538-542 | the height added below the square is exactly one gap plus the hue strip when the alpha strip is hidden, and two gaps plus both strips when it is shown |
| `Layout.ContentSize` | ColorPicker/app/src/main/java/com/demo/colorpicker/lib/ColorPickerView.java:536-604 | an EXACTLY dimension is taken as allowed; the result is either the full allowance, or a size that fits the allowance and whose height is its width plus the strips (a square saturation/value panel) |
| `Layout.Measure` | ColorPicker/app/src/main/java/com/demo/colorpicker/lib/ColorPickerView.java:526-608 | the measured size respects the parent's specs: an EXACTLY dimension is measured at exactly the spec size, and neither dimension exceeds its spec size |
| `Layout.MeasureBothExactly` | ColorPicker/app/src/main/java/com/demo/colorpicker/lib/ColorPickerView.java:566-569 | with both modes EXACTLY, the content size is the allowed size |
| `Layout.MeasureWidthExactly` | ColorPicker/app/src/main/java/com/demo/colorpicker/lib/ColorPickerView.java:537-550 | with only the width EXACTLY, the width is the allowed width and the height is min(width + strips, allowed height) |
| `Layout.MeasureHeightExactly` | ColorPicker/app/src/main/java/com/demo/colorpicker/lib/ColorPickerView.java:551-565 | with only the height EXACTLY, the height is the allowed height and the width is min(height - strips, allowed width) |
| `Layout.MeasureNeitherExactly` | ColorPicker/app/src/main/java/com/demo/colorpicker/lib/ColorPickerView.java:570-604 | with neither mode EXACTLY, the needed width or the needed height always fits, so the table's last case is dead; the content fits the allowance, fills it on at least one axis, and gives a square saturation/value panel |
| `Layout.DrawingRect` | ColorPicker/app/src/main/java/com/demo/colorpicker/lib/ColorPickerView.java:649-653 | the drawing rectangle starts at the top-left padding, and its extents are the view size less the paddings on both sides |
| `Layout.SatValRect` | ColorPicker/app/src/main/java/com/demo/colorpicker/lib/ColorPickerView.java:667-680 | the square spans the drawing rectangle less one border pixel on each side; its height is the drawing height less two border pixels and the strips below it |
| `Layout.HueRect` | ColorPicker/app/src/main/java/com/demo/colorpicker/lib/ColorPickerView.java:682-696 | the hue strip shares the square's left and right; its height is `huePanelHeightPx - 2`; its bottom is one pixel above the drawing bottom, or above the alpha strip and a gap when that strip is shown |
| `Layout.AlphaRect` | ColorPicker/app/src/main/java/com/demo/colorpicker/lib/ColorPickerView.java:698-709 | the alpha strip shares the same left and right; its height is `alphaPanelHeightPx - 2`; its bottom is one pixel above the drawing bottom |
| `Layout.PanelsStacked` | ColorPicker/app/src/main/java/com/demo/colorpicker/lib/ColorPickerView.java:667-709 | `satValRect.bottom + spacing + 2 == hueRect.top`, and with alpha shown `hueRect.bottom + spacing + 2 == alphaRect.top`; no point lies in two panels |
| `Layout.PanelsInsideDrawing` | ColorPicker/app/src/main/java/com/demo/colorpicker/lib/ColorPickerView.java:667-709 | when the drawing rectangle is at least as tall as the strips, every point of every panel lies strictly inside it |
| `Layout.MeasuredSatValSquare` | ColorPicker/app/src/main/java/com/demo/colorpicker/lib/ColorPickerView.java:571-607 | with neither mode EXACTLY, laying out the measured size gives a saturation/value panel exactly as tall as it is wide |
| `ColorPicker.PanelAtLaidOut` | ColorPicker/app/src/main/java/com/demo/colorpicker/lib/ColorPickerView.java:505-520 | on freshly laid-out panels the hue > sat/val > alpha priority never decides anything: a gesture drives a panel exactly when that panel contains its start |
| `ColorPicker.StaleAlphaRectDispatches` | ColorPicker/app/src/main/java/com/demo/colorpicker/lib/ColorPickerView.java:698-700 | after a layout with the alpha strip hidden, a touch is dispatched to alpha exactly when it starts in the strip an earlier layout left and in neither of the new panels |
| `ColorPicker.StaleAlphaRectStillDispatches` | ColorPicker/app/src/main/java/com/demo/colorpicker/lib/ColorPickerView.java:698-700 | after a relayout with the alpha strip hidden, the old alpha rectangle is kept, and a touch starting in it outside the new panels is dispatched to alpha |
| `ColorPicker.ColorPickerView.constructor` | ColorPicker/app/src/main/java/com/demo/colorpicker/lib/ColorPickerView.java:74-92 | a new view is opaque (alpha 255) with hue 360, saturation 0 and value 0; the alpha strip is shown; no rectangle is laid out and no touch is in progress |
| `ColorPicker.ColorPickerView.SetAlphaSliderVisible` | ColorPicker/app/src/main/java/com/demo/colorpicker/lib/ColorPickerView.java:751-763 | only the visibility flag changes |
| `ColorPicker.ColorPickerView.SetUpSatValRect` | ColorPicker/app/src/main/java/com/demo/colorpicker/lib/ColorPickerView.java:667-680 | only `satValRect` changes, and it becomes `SatValRect` of the drawing rectangle |
| `ColorPicker.ColorPickerView.SetUpHueRect` | ColorPicker/app/src/main/java/com/demo/colorpicker/lib/ColorPickerView.java:682-696 | only `hueRect` changes, and it becomes `HueRect` of the drawing rectangle |
| `ColorPicker.ColorPickerView.SetUpAlphaRect` | ColorPicker/app/src/main/java/com/demo/colorpicker/lib/ColorPickerView.java:698-709 | with the strip shown, `alphaRect` becomes `AlphaRect` of the drawing rectangle; with it hidden, nothing changes |
| `ColorPicker.ColorPickerView.OnSizeChanged` | ColorPicker/app/src/main/java/com/demo/colorpicker/lib/ColorPickerView.java:645-665 | the drawing rectangle is the new size less the effective padding; the three panels are laid out from it; the view is then laid out; the colour and the touch state do not change |
| `ColorPicker.ColorPickerView.MoveTrackersIfNeeded` | ColorPicker/app/src/main/java/com/demo/colorpicker/lib/ColorPickerView.java:495-523 | with no touch start it returns false and changes nothing; otherwise only the channel(s) of the first panel (hue, then sat/val, then alpha) that contains the start are set from the event, and the others are untouched; channel ranges are preserved |
| `ColorPicker.ColorPickerView.OnTouchEvent` | ColorPicker/app/src/main/java/com/demo/colorpicker/lib/ColorPickerView.java:463-493 | DOWN records the int-cast start point and dispatches; MOVE dispatches from the recorded start; UP clears the start before dispatching, so it never changes the colour; other actions change nothing; channel ranges are preserved |

## Left out

- Drawing is left out: `onDraw`, `drawSatValPanel`, `drawHuePanel`, `drawAlphaPanel`, the shaders, `BitmapCache` and `AlphaPatternDrawable`. They are calls into the toolkit's canvas API.
- Theme lookup, `initPaintTools` and the dp-to-pixel conversion in `init` are left out. The pixel sizes (`PanelDims`, the required padding) are parameters of the constructor.
- `setColor` and `getColor` are left out. They call the toolkit's `Color.HSVToColor` and `RGBToHSV`, which are float colour-space code outside this model. So the channel-range invariant is proved only for changes made by touch.
- `onSaveInstanceState` and `onRestoreInstanceState` are left out. They persist state through the toolkit's `Bundle`.
- Listener notification, `invalidate()` and `requestLayout()` are toolkit side effects. Only the `update` flag that triggers them is modelled. When nothing is updated, `onTouchEvent` returns `super.onTouchEvent(event)`; that value belongs to the toolkit and is not modelled.
- `getPreferredWidth` and `getPreferredHeight` are left out. Nothing in the view calls them.
- Slider-text, tracker-colour and border-colour getters and setters are left out. They only store a value and redraw.
- Floats are modelled as `real`. `PointToHue`, `PointToSatVal` and the `*ToPoint` functions are exact real arithmetic, not IEEE single precision. NaN coordinates are not modelled.
- `HueToPoint`, `SatValToPoint` and `AlphaToPoint`: no round trip with the `PointTo*` functions is stated. The `(int)` cast makes them inexact.
- Layout and measurement use unbounded ints. Java's 32-bit overflow of padding and size sums is not modelled there.
- `PointToAlpha`: the 32-bit overflow of `x * 255` for strips wider than 8,421,504 px is excluded by precondition, not modelled. The touch methods assume it too (`AlphaScaleFits`).
- The rectangles are `null` until the first `onSizeChanged`. They are modelled as `Option`. A touch that dereferences them before layout would throw `NullPointerException`; the touch methods exclude that case by precondition.
- `MainActivity.kt` holds no logic and is not part of this model.
