/** The centimetre instance of the split, as configured by the stand-alone
    script that converts `in.pdf`. Its constant names follow the landscape
    reading: the A4 "height" is the short side, 21 cm. */
module MainScript {
  import opened Geometry
  import opened Split
  import A3ToA4

  // Sheet dimensions in centimetres. `A3Height` and `A4Width` are declared by the
  // script but unused; `A4Height` is the short side of A4 in landscape.
  const A3Width: real := 42.0
  const A3Height: real := 29.7
  const A4Width: real := 29.7
  const A4Height: real := 21.0

  /** The printer's physical print margin, in centimetres. */
  const Overlapping: real := 0.4

  const CentimetreSplit: SplitConfig := SplitConfig(A3Width, A4Height, Overlapping)

  /** In exact arithmetic the centimetre constants give the same two crop
      boxes as the millimetre constants, on every page. */
  lemma AgreesWithMillimetre(page: PageGeometry)
    ensures FirstHalf(CentimetreSplit, page) == FirstHalf(A3ToA4.MillimetreSplit, page)
    ensures SecondHalf(CentimetreSplit, page) == SecondHalf(A3ToA4.MillimetreSplit, page)
  {
    UnitChange(CentimetreSplit, 10.0, page);
    assert InUnit(CentimetreSplit, 10.0) == A3ToA4.MillimetreSplit;
  }

  /** Hence both scripts produce the same output document from the same input. */
  lemma {:induction false} SameDocumentAsMillimetre(pages: seq<PageGeometry>)
    ensures SplitDocument(CentimetreSplit, pages) == SplitDocument(A3ToA4.MillimetreSplit, pages)
  {
    if pages != [] {
      var i := |pages| - 1;
      SameDocumentAsMillimetre(pages[..i]);
      AgreesWithMillimetre(pages[i]);
    }
  }

  /** On a page measured in centimetres the first half covers 0.4 to 21.4 cm
      and the second 20.6 to 41.6 cm, the 4/214/206/416 mm of the script's
      documentation. */
  lemma DocumentedBoundaries(height: real)
    ensures FirstHalf(CentimetreSplit, PageGeometry(A3Width, height))
            == Rect(Point(0.4, 0.0), Point(21.4, height))
    ensures SecondHalf(CentimetreSplit, PageGeometry(A3Width, height))
            == Rect(Point(20.6, 0.0), Point(41.6, height))
  {
  }

  /** The constants are valid split measurements: on every page with an area
      both halves are non-empty, inside the page, and overlap. */
  lemma CentimetreSplitCrops(page: PageGeometry)
    requires Positive(page)
    ensures ValidSplit(CentimetreSplit)
    ensures IsCropOf(FirstHalf(CentimetreSplit, page), page)
    ensures IsCropOf(SecondHalf(CentimetreSplit, page), page)
    ensures SecondHalf(CentimetreSplit, page).lowerLeft.x < FirstHalf(CentimetreSplit, page).upperRight.x
    ensures FirstHalf(CentimetreSplit, page).lowerLeft.x
            == page.width - SecondHalf(CentimetreSplit, page).upperRight.x
  {
    SplitCrops(CentimetreSplit, page);
    OverlapIff(CentimetreSplit, page);
  }
}
