/** The grid geometry the layout derives from its collection view: content
    width, number of columns and cell width, plus the few rectangle
    operations of CoreGraphics the layout relies on. `CGFloat` is modelled as
    `real`, so there is no floating-point rounding. */
module Geometry {
  import opened Wrappers
  import opened ContentSize

  /** `CGSize`. */
  datatype Size = Size(width: real, height: real)

  /** `UIEdgeInsets`. */
  datatype Insets = Insets(top: real, left: real, bottom: real, right: real)

  /** What the layout reads from its collection view: the frame size, the
      bounds size and the content inset. CoreGraphics reports `frame.width`
      as a non-negative number; the model does not constrain it, and states
      the negative case only to cover every value of the type. */
  datatype View = View(frame: Size, bounds: Size, contentInset: Insets)

  /** `CGRect`: an origin and a size; a negative size extends the rectangle
      to the left of (or above) its origin, as CoreGraphics standardises it. */
  datatype Rect = Rect(x: real, y: real, width: real, height: real) {

    function MinX(): real { if width >= 0.0 then x else x + width }
    function MaxX(): real { if width >= 0.0 then x + width else x }
    function MinY(): real { if height >= 0.0 then y else y + height }
    function MaxY(): real { if height >= 0.0 then y + height else y }

    /** `CGRect.intersects`: the two rectangles share interior area along
        both axes (rectangles that only touch along an edge do not). */
    predicate Intersects(other: Rect) {
      && MinX() < other.MaxX() && other.MinX() < MaxX()
      && MinY() < other.MaxY() && other.MinY() < MaxY()
    }

    /** `CGRect.insetBy(dx:dy:)` on a rectangle of non-negative size that is
        large enough for the inset to leave a non-negative size. */
    function InsetBy(dx: real, dy: real): (r: Rect)
      requires 0.0 <= width && 2.0 * dx <= width
      requires 0.0 <= height && 2.0 * dy <= height
      ensures r.MinX() == MinX() + dx && r.MaxX() == MaxX() - dx
      ensures r.MinY() == MinY() + dy && r.MaxY() == MaxY() - dy
      ensures r.width >= 0.0 && r.height >= 0.0
    {
      Rect(x + dx, y + dy, width - 2.0 * dx, height - 2.0 * dy)
    }
  }

  /** Swift's `Int(_:)` on a floating-point value: truncation toward zero. */
  function Trunc(x: real): (t: int)
    ensures 0.0 <= x ==> 0 <= t && t as real <= x < t as real + 1.0
    ensures x < 0.0 ==> t <= 0 && t as real - 1.0 < x <= t as real
  {
    if x >= 0.0 then x.Floor else -((-x).Floor)
  }

  /** `contentWidth`: the bounds width less the left and right insets, 0
      without a collection view. */
  function ContentWidth(view: Option<View>): (w: real)
    ensures view.None? ==> w == 0.0
    ensures view.Some? ==> w + view.value.contentInset.left + view.value.contentInset.right == view.value.bounds.width
  {
    match view
    case None => 0.0
    case Some(v) => v.bounds.width - (v.contentInset.left + v.contentInset.right)
  }

  /** `numberOfColumns`: how many cells of the suggested minimum width fit in
      the frame width, at least one once the frame has any width. The
      category is the preferred content size category the source reads from
      the application. */
  function NumberOfColumns(view: Option<View>, category: SizeCategory): (n: int)
    ensures view.None? ==> n == 0
    ensures view.Some? && view.value.frame.width == 0.0 ==> n == 0
    ensures view.Some? && view.value.frame.width < 0.0 ==> n <= 0
    ensures view.Some? && view.value.frame.width > 0.0 ==> n >= 1
  {
    match view
    case None => 0
    case Some(v) =>
      var suggestedColumns := Trunc(v.frame.width / SuggestedSize(category).width);
      if suggestedColumns == 0 && v.frame.width > 0.0 then 1 else suggestedColumns
  }

  /** For a positive frame width the column count is the floor of the frame
      width over the suggested width, raised to one. A frame at least one
      suggested width wide holds every column at the full suggested width; as
      every suggested width is at least 320 points, such a frame also holds
      the columns at 320 points each, and a frame narrower than 320 points has
      a single column. */
  lemma NumberOfColumnsFit(view: Option<View>, category: SizeCategory)
    requires view.Some? && view.value.frame.width > 0.0
    ensures var n, w := NumberOfColumns(view, category), view.value.frame.width;
            && var q := (w / SuggestedSize(category).width).Floor;
            && n == (if q == 0 then 1 else q)
            && (w >= SuggestedSize(category).width ==> n as real * SuggestedSize(category).width <= w)
            && (w >= 320.0 ==> n as real * 320.0 <= w)
            && (w < 320.0 ==> n == 1)
  {
    var w, m := view.value.frame.width, SuggestedSize(category).width;
    SuggestedWidthRange(category);
    var q := w / m;
    assert q * m == w;
    if w < 320.0 {
      assert q < 1.0 by {
        assert q * m < m;
      }
    } else {
      var f := q.Floor;
      assert f as real <= q;
      if w >= m {
        assert q >= 1.0 by {
          assert q * m >= 1.0 * m;
        }
      }
      assert f as real * m <= q * m by {
        assert (q - f as real) * m >= 0.0;
      }
      assert f as real * 320.0 <= f as real * m by {
        assert f as real * (m - 320.0) >= 0.0;
      }
    }
  }

  /** `cellWidth`: the frame width less one point of gutter between adjacent
      columns, split evenly and reduced by one more point, rounded down. */
  function CellWidth(view: Option<View>, category: SizeCategory): (w: real)
    requires view.Some? ==> NumberOfColumns(view, category) >= 1
    ensures view.None? ==> w == 0.0
    ensures w == w.Floor as real
  {
    match view
    case None => 0.0
    case Some(v) =>
      var n := NumberOfColumns(view, category);
      (((v.frame.width - (n - 1) as real) / n as real) - 1.0).Floor as real
  }

  /** The columns of cells, the one-point gutters between them and one more
      point per column fit in the frame width. */
  lemma CellWidthFits(view: Option<View>, category: SizeCategory)
    requires view.Some? && NumberOfColumns(view, category) >= 1
    ensures var n := NumberOfColumns(view, category) as real;
            n * CellWidth(view, category) + (n - 1.0) <= view.value.frame.width - n
  {
    var n := NumberOfColumns(view, category);
    var width := view.value.frame.width;
    CellWidthBound(width, n as real, (width - (n - 1) as real) / n as real - 1.0);
  }

  /** The arithmetic behind `CellWidthFits`: multiplying the floored
      quotient back by the column count. */
  lemma CellWidthBound(width: real, n: real, q: real)
    requires n >= 1.0 && q == (width - (n - 1.0)) / n - 1.0
    ensures n * (q.Floor as real) + (n - 1.0) <= width - n
  {
    var f := q.Floor as real;
    assert n * (q + 1.0) == width - (n - 1.0);
    assert n * (q + 1.0) == n * q + n;
    assert n * f <= n * q by {
      assert n * (q - f) >= 0.0;
    }
  }

  /** `shouldInvalidateLayout(forBoundsChange:)`: only a change of size
      (against the current frame size) invalidates, and nothing does without
      a collection view. */
  function ShouldInvalidateForBoundsChange(view: Option<View>, newBounds: Size): (b: bool)
    ensures b <==> view.Some? && newBounds != view.value.frame
    ensures view.Some? && newBounds.width != view.value.frame.width ==> b
  {
    match view
    case None => false
    case Some(v) => newBounds != v.frame
  }
}
