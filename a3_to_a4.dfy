/** The millimetre instance of the split, as configured by the A3-to-A4
    command-line script. */
module A3ToA4 {
  import opened Geometry
  import opened Split

  // Sheet dimensions in millimetres. `A3Height` and `A4Width` are declared by the
  // script but unused; `A4Height` is the short side of A4 in landscape.
  const A3Width: real := 420.0
  const A3Height: real := 297.0
  const A4Width: real := 297.0
  const A4Height: real := 210.0

  /** The printer's physical print margin, in millimetres. */
  const Overlapping: real := 4.0

  const MillimetreSplit: SplitConfig := SplitConfig(A3Width, A4Height, Overlapping)

  /** The script's constants satisfy the split's validity conditions, and A3
      is exactly twice A4 across, so both halves have the same width. */
  lemma MillimetreSplitValid(page: PageGeometry)
    ensures ValidSplit(MillimetreSplit)
    ensures FirstHalf(MillimetreSplit, page).Width() == SecondHalf(MillimetreSplit, page).Width()
  {
    HalfWidths(MillimetreSplit, page);
  }

  /** On a page measured in millimetres the first half covers 4 to 214 mm and
      the second 206 to 416 mm, as the script's documentation describes. */
  lemma DocumentedBoundaries(height: real)
    ensures FirstHalf(MillimetreSplit, PageGeometry(A3Width, height))
            == Rect(Point(4.0, 0.0), Point(214.0, height))
    ensures SecondHalf(MillimetreSplit, PageGeometry(A3Width, height))
            == Rect(Point(206.0, 0.0), Point(416.0, height))
  {
  }

  /** The script's loop is `SplitPages` with these constants. On input pages
      that all have an area, every input page becomes two output pages, and
      each of them is a non-empty crop of the page it was copied from. */
  lemma MillimetreDocumentCrops(pages: seq<PageGeometry>)
    requires forall i :: 0 <= i < |pages| ==> Positive(pages[i])
    ensures |SplitDocument(MillimetreSplit, pages)| == 2 * |pages| &&
      forall i :: 0 <= i < |pages| ==>
        SplitDocument(MillimetreSplit, pages)[2 * i].source == i &&
        IsCropOf(SplitDocument(MillimetreSplit, pages)[2 * i].crop, pages[i]) &&
        SplitDocument(MillimetreSplit, pages)[2 * i + 1].source == i &&
        IsCropOf(SplitDocument(MillimetreSplit, pages)[2 * i + 1].crop, pages[i])
  {
    SplitDocumentLayout(MillimetreSplit, pages);
    forall i | 0 <= i < |pages|
      ensures IsCropOf(FirstHalf(MillimetreSplit, pages[i]), pages[i])
      ensures IsCropOf(SecondHalf(MillimetreSplit, pages[i]), pages[i])
    {
      SplitCrops(MillimetreSplit, pages[i]);
    }
  }
}
