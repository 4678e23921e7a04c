/** Values shared by both crop operations: points and rectangles in a page's
    own coordinate space, the measured geometry of an input page, and the
    pages of an output document. */
module Geometry {

  /** A point in the page's own coordinate space (PDF user-space units). */
  datatype Point = Point(x: real, y: real)

  /** A crop box, given by its lower-left and upper-right corners. */
  datatype Rect = Rect(lowerLeft: Point, upperRight: Point) {

    /** Horizontal extent of the box. */
    function Width(): real {
      upperRight.x - lowerLeft.x
    }

    /** Vertical extent of the box. */
    function Height(): real {
      upperRight.y - lowerLeft.y
    }
  }

  /** The measured media box of one input page. Its lower-left corner is taken
      to be the origin, so only the upper-right corner (width, height) is kept. */
  datatype PageGeometry = PageGeometry(width: real, height: real)

  /** A page that has an area at all. */
  predicate Positive(page: PageGeometry) {
    page.width > 0.0 && page.height > 0.0
  }

  /** `r` is a non-empty rectangle lying inside the page's media box. */
  predicate IsCropOf(r: Rect, page: PageGeometry) {
    0.0 <= r.lowerLeft.x < r.upperRight.x <= page.width &&
    0.0 <= r.lowerLeft.y < r.upperRight.y <= page.height
  }

  /** One page of the output document: a copy of input page `source` whose
      crop box has been set to `crop`. */
  datatype OutputPage = OutputPage(source: nat, crop: Rect)

  // ---------------------------------------------------------------------
  // Facts about scaled fractions `a / n * w` used by both crop operations

  /** Scaling distributes over a difference of nominal lengths. */
  lemma DifferenceScales(a: real, b: real, n: real, w: real)
    requires n != 0.0
    ensures a / n * w - b / n * w == (a - b) / n * w
  {
  }

  /** Dividing by a positive nominal width keeps the order of two lengths. */
  lemma FractionOrder(a: real, b: real, n: real)
    requires n > 0.0
    ensures a / n < b / n <==> a < b
    ensures a / n <= b / n <==> a <= b
  {
    assert a / n - b / n == (a - b) / n;
  }

  /** Scaling by a positive page dimension keeps the order of two fractions. */
  lemma ScaleOrder(a: real, b: real, w: real)
    requires w > 0.0
    ensures a * w < b * w <==> a < b
    ensures a * w <= b * w <==> a <= b
  {
    assert a * w - b * w == (a - b) * w;
  }

  /** Two nominal lengths and their scaled positions on the page are in the
      same order. */
  lemma ScaledOrder(a: real, b: real, n: real, w: real)
    requires n > 0.0 && w > 0.0
    ensures a / n * w < b / n * w <==> a < b
    ensures a / n * w <= b / n * w <==> a <= b
  {
    FractionOrder(a, b, n);
    ScaleOrder(a / n, b / n, w);
  }

  /** The nominal edges 0 and `n` land on the page edges 0 and `w`. */
  lemma ScaledEnds(n: real, w: real)
    requires n != 0.0
    ensures 0.0 / n * w == 0.0
    ensures n / n * w == w
  {
  }

  /** A position `x`, the nominal length `a` scaled, lies at or after the
      page's left edge exactly when `a` is non-negative. */
  lemma ScaledNonNegative(x: real, a: real, n: real, w: real)
    requires n > 0.0 && w > 0.0 && x == a / n * w
    ensures 0.0 <= x <==> 0.0 <= a
  {
    ScaledEnds(n, w);
    ScaledOrder(0.0, a, n, w);
  }

  /** A position `x`, the nominal length `a` scaled, lies at or before the
      page's right edge exactly when `a` is at most the nominal width. */
  lemma ScaledAtMostWidth(x: real, a: real, n: real, w: real)
    requires n > 0.0 && w > 0.0 && x == a / n * w
    ensures x <= w <==> a <= n
  {
    ScaledEnds(n, w);
    ScaledOrder(a, n, n, w);
  }

  /** Two positions, the nominal lengths `a` and `b` scaled, are strictly
      ordered exactly when `a` and `b` are. */
  lemma ScaledLess(x: real, y: real, a: real, b: real, n: real, w: real)
    requires n > 0.0 && w > 0.0 && x == a / n * w && y == b / n * w
    ensures x < y <==> a < b
  {
    ScaledOrder(a, b, n, w);
  }

  /** A scaled fraction vanishes exactly when its numerator does. */
  lemma ZeroProduct(a: real, n: real, w: real)
    requires n != 0.0 && w != 0.0
    ensures a / n * w == 0.0 <==> a == 0.0
  {
    if a / n * w == 0.0 {
      assert a / n == 0.0;
      assert a == (a / n) * n;
    }
  }
}
