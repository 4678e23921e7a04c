/** Trimming a scanner's oversized capture area back to a nominal sheet. The
    excess is cut from the left and bottom edges only, and only the first page
    of the input is processed. */
module Trim {
  import opened Geometry

  /** Nominal measurements, all in one length unit: the scanner's capture
      area and the sheet it should have been. */
  datatype TrimConfig = TrimConfig(scanWidth: real, scanHeight: real, nominalWidth: real, nominalHeight: real)

  /** Excess width, removed at the left edge. It is non-negative exactly when
      the sheet fits the scan, and smaller than the scan exactly when the
      sheet has a width. */
  function LeftTrim(cfg: TrimConfig): (r: real)
    ensures 0.0 <= r <==> cfg.nominalWidth <= cfg.scanWidth
    ensures r < cfg.scanWidth <==> 0.0 < cfg.nominalWidth
  {
    cfg.scanWidth - cfg.nominalWidth
  }

  /** Excess height, removed at the bottom edge; as for `LeftTrim`, it is
      non-negative exactly when the sheet fits the scan, and smaller than the
      scan exactly when the sheet has a height. */
  function BottomTrim(cfg: TrimConfig): (r: real)
    ensures 0.0 <= r <==> cfg.nominalHeight <= cfg.scanHeight
    ensures r < cfg.scanHeight <==> 0.0 < cfg.nominalHeight
  {
    cfg.scanHeight - cfg.nominalHeight
  }

  // A3 in millimetres, and the capture area of the scanner the script was
  // written for.
  const A3Width: real := 420.0
  const A3Height: real := 297.0
  const ScanAreaHeight: real := 297.01
  const ScanAreaWidth: real := 432.65

  const ScannerTrim: TrimConfig := TrimConfig(ScanAreaWidth, ScanAreaHeight, A3Width, A3Height)

  /** Measurements for which the trim leaves a non-empty part of every page:
      the scan is at least as large as the sheet, and the sheet has an area. */
  predicate ValidTrim(cfg: TrimConfig) {
    0.0 < cfg.nominalWidth <= cfg.scanWidth && 0.0 < cfg.nominalHeight <= cfg.scanHeight
  }

  /** The crop box: the lower-left corner moves in by the scaled trims, so the
      upper-right corner stays at the page's own extent and what is kept is
      the nominal fraction of the scan in each direction. */
  function TrimCrop(cfg: TrimConfig, page: PageGeometry): (r: Rect)
    requires cfg.scanWidth != 0.0 && cfg.scanHeight != 0.0
    ensures r.upperRight == Point(page.width, page.height)
    ensures r.Width() == page.width * cfg.nominalWidth / cfg.scanWidth
    ensures r.Height() == page.height * cfg.nominalHeight / cfg.scanHeight
  {
    var leftTrimScaled := LeftTrim(cfg) / cfg.scanWidth * page.width;
    var bottomTrimScaled := BottomTrim(cfg) / cfg.scanHeight * page.height;
    KeptFraction(cfg.scanWidth, cfg.nominalWidth, page.width);
    KeptFraction(cfg.scanHeight, cfg.nominalHeight, page.height);
    Rect(Point(leftTrimScaled, bottomTrimScaled), Point(page.width, page.height))
  }

  /** Removing the scaled excess `(s - n) / s` of `w` keeps `w * n / s`. */
  lemma KeptFraction(s: real, n: real, w: real)
    requires s != 0.0
    ensures w - (s - n) / s * w == w * n / s
  {
    DifferenceScales(s, n, s, w);
    ScaledEnds(s, w);
    assert n / s * w == w * n / s;
  }

  /** The script's trims are 12.65 mm and 0.01 mm, both positive and smaller
      than the capture area, so its configuration is valid. */
  lemma ScannerTrimAmounts()
    ensures LeftTrim(ScannerTrim) == 12.65 && BottomTrim(ScannerTrim) == 0.01
    ensures 0.0 < LeftTrim(ScannerTrim) < ScanAreaWidth
    ensures 0.0 < BottomTrim(ScannerTrim) < ScanAreaHeight
    ensures ValidTrim(ScannerTrim)
  {
  }

  /** On a page with an area, and for a positive scan area, the crop is a
      non-empty rectangle inside the page exactly when the measurements are
      valid. */
  lemma TrimCropConditions(cfg: TrimConfig, page: PageGeometry)
    requires cfg.scanWidth > 0.0 && cfg.scanHeight > 0.0 && Positive(page)
    ensures IsCropOf(TrimCrop(cfg, page), page) <==> ValidTrim(cfg)
  {
    var sw, sh, w, h := cfg.scanWidth, cfg.scanHeight, page.width, page.height;
    var corner := TrimCrop(cfg, page).lowerLeft;
    ScaledEnds(sw, w);
    ScaledEnds(sh, h);
    ScaledNonNegative(corner.x, LeftTrim(cfg), sw, w);
    ScaledLess(corner.x, w, LeftTrim(cfg), sw, sw, w);
    ScaledNonNegative(corner.y, BottomTrim(cfg), sh, h);
    ScaledLess(corner.y, h, BottomTrim(cfg), sh, sh, h);
  }

  /** With valid measurements, on a page with an area, the lower-left corner
      lies in [0, width) x [0, height) and the crop is inside the page. */
  lemma TrimCrops(cfg: TrimConfig, page: PageGeometry)
    requires ValidTrim(cfg) && Positive(page)
    ensures 0.0 <= TrimCrop(cfg, page).lowerLeft.x < page.width
    ensures 0.0 <= TrimCrop(cfg, page).lowerLeft.y < page.height
    ensures IsCropOf(TrimCrop(cfg, page), page)
  {
    TrimCropConditions(cfg, page);
  }

  /** Given a positive capture area, the crop is a non-empty rectangle inside
      every page with an area exactly when the measurements are valid. */
  lemma TrimCropsIff(cfg: TrimConfig)
    requires cfg.scanWidth > 0.0 && cfg.scanHeight > 0.0
    ensures ValidTrim(cfg) <==> forall page :: Positive(page) ==> IsCropOf(TrimCrop(cfg, page), page)
  {
    if ValidTrim(cfg) {
      forall page | Positive(page) ensures IsCropOf(TrimCrop(cfg, page), page) {
        TrimCropConditions(cfg, page);
      }
    }
    TrimCropConditions(cfg, PageGeometry(1.0, 1.0));
  }

  /** On a page with an area the crop is a no-op, its lower-left corner at the
      origin, exactly when the capture area equals the nominal sheet. */
  lemma NoOpTrimIff(cfg: TrimConfig, page: PageGeometry)
    requires cfg.scanWidth != 0.0 && cfg.scanHeight != 0.0 && Positive(page)
    ensures TrimCrop(cfg, page).lowerLeft == Point(0.0, 0.0)
            <==> cfg.scanWidth == cfg.nominalWidth && cfg.scanHeight == cfg.nominalHeight
  {
    ZeroProduct(LeftTrim(cfg), cfg.scanWidth, page.width);
    ZeroProduct(BottomTrim(cfg), cfg.scanHeight, page.height);
  }

  /** Reading page 0 of a document that has no pages. */
  datatype PageError = PageIndexOutOfRange(index: nat)

  datatype Result<T> = Ok(value: T) | Err(error: PageError)

  /** The script's pipeline: only page 0 is read, cropped and written, so the
      output has exactly one page whatever the input's page count; an empty
      input fails when page 0 is read. */
  function TrimFirstPage(cfg: TrimConfig, pages: seq<PageGeometry>): (r: Result<seq<OutputPage>>)
    requires cfg.scanWidth != 0.0 && cfg.scanHeight != 0.0
    ensures r.Ok? <==> |pages| >= 1
    ensures r.Err? ==> r.error == PageIndexOutOfRange(0)
    ensures r.Ok? ==> |r.value| == 1 && r.value[0].source == 0
                      && r.value[0].crop == TrimCrop(cfg, pages[0])
  {
    var firstPageNumber := 0;
    if firstPageNumber < |pages| then
      Ok([OutputPage(firstPageNumber, TrimCrop(cfg, pages[firstPageNumber]))])
    else
      Err(PageIndexOutOfRange(firstPageNumber))
  }

  /** Pages after the first have no effect on the output. */
  lemma TrimIgnoresLaterPages(cfg: TrimConfig, pages: seq<PageGeometry>, later: seq<PageGeometry>)
    requires cfg.scanWidth != 0.0 && cfg.scanHeight != 0.0 && |pages| >= 1
    ensures TrimFirstPage(cfg, pages + later) == TrimFirstPage(cfg, pages)
    ensures TrimFirstPage(cfg, pages) == TrimFirstPage(cfg, pages[..1])
  {
  }

  /** With the script's constants, a non-empty input whose first page has an
      area yields exactly one page, a non-empty crop of input page 0. */
  lemma ScannerTrimOutput(pages: seq<PageGeometry>)
    requires |pages| >= 1 && Positive(pages[0])
    ensures TrimFirstPage(ScannerTrim, pages).Ok?
    ensures |TrimFirstPage(ScannerTrim, pages).value| == 1
    ensures IsCropOf(TrimFirstPage(ScannerTrim, pages).value[0].crop, pages[0])
  {
    TrimCrops(ScannerTrim, pages[0]);
  }
}
