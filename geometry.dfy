/** The toolkit's integer rectangle and point, with the rectangle's
    half-open hit test. */
module Geometry {

  /** A reference that may be null. */
  datatype Option<T> = None | Some(value: T)

  datatype Point = Point(x: int, y: int)

  /** An axis-aligned rectangle with integer edges; `right` and `bottom` are
      exclusive for hit testing. */
  datatype Rect = Rect(left: int, top: int, right: int, bottom: int) {

    function Width(): int {
      right - left
    }

    function Height(): int {
      bottom - top
    }

    predicate IsEmpty() {
      left >= right || top >= bottom
    }

    /** The toolkit's `Rect.contains(x, y)`: half-open on both axes, and
        false for an empty rectangle. */
    predicate Contains(x: int, y: int) {
      left < right && top < bottom && left <= x < right && top <= y < bottom
    }
  }

  /** A rectangle that contains some point has positive extents. */
  lemma ContainsImpliesNonEmpty(r: Rect, x: int, y: int)
    requires r.Contains(x, y)
    ensures !r.IsEmpty() && r.Width() > 0 && r.Height() > 0
  {
  }
}
