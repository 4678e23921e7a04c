/** Splitting one landscape page into two overlapping halves (A3 into two A4).
    Every coordinate is a length on the nominal sheet divided by the nominal
    sheet width and scaled by the measured page width. */
module Split {
  import opened Geometry

  /** Nominal measurements, all in one length unit: the landscape width of the
      source sheet, the dimension of the target sheet laid along it, and the
      printer margin that is duplicated on both halves. */
  datatype SplitConfig = SplitConfig(sourceWidth: real, targetHeight: real, overlap: real)

  /** Measurements for which both halves are non-empty and inside the page. */
  predicate ValidSplit(cfg: SplitConfig) {
    0.0 <= cfg.overlap <= cfg.targetHeight &&
    0.0 < cfg.targetHeight < cfg.sourceWidth &&
    cfg.targetHeight + cfg.overlap <= cfg.sourceWidth
  }

  /** The left half: from `overlap` to `overlap + targetHeight` on the nominal
      sheet, over the full page height. */
  function FirstHalf(cfg: SplitConfig, page: PageGeometry): Rect
    requires cfg.sourceWidth != 0.0
  {
    var starting := cfg.overlap / cfg.sourceWidth * page.width;
    var ending := (cfg.overlap + cfg.targetHeight) / cfg.sourceWidth * page.width;
    Rect(Point(starting, 0.0), Point(ending, page.height))
  }

  /** The right half: from `targetHeight - overlap` to `sourceWidth - overlap`
      on the nominal sheet, over the full page height. */
  function SecondHalf(cfg: SplitConfig, page: PageGeometry): Rect
    requires cfg.sourceWidth != 0.0
  {
    var starting := (cfg.targetHeight - cfg.overlap) / cfg.sourceWidth * page.width;
    var ending := (cfg.sourceWidth - cfg.overlap) / cfg.sourceWidth * page.width;
    Rect(Point(starting, 0.0), Point(ending, page.height))
  }

  /** Both halves keep the page's whole vertical extent. */
  lemma FullHeight(cfg: SplitConfig, page: PageGeometry)
    requires cfg.sourceWidth != 0.0
    ensures FirstHalf(cfg, page).lowerLeft.y == 0.0 && FirstHalf(cfg, page).upperRight.y == page.height
    ensures SecondHalf(cfg, page).lowerLeft.y == 0.0 && SecondHalf(cfg, page).upperRight.y == page.height
  {
  }

  /** The first half is `targetHeight` wide on the nominal sheet and the
      second half is the rest of the sheet, `sourceWidth - targetHeight`. */
  lemma HalfWidths(cfg: SplitConfig, page: PageGeometry)
    requires cfg.sourceWidth != 0.0
    ensures FirstHalf(cfg, page).Width() == cfg.targetHeight / cfg.sourceWidth * page.width
    ensures SecondHalf(cfg, page).Width()
            == (cfg.sourceWidth - cfg.targetHeight) / cfg.sourceWidth * page.width
  {
    var n, o, t, w := cfg.sourceWidth, cfg.overlap, cfg.targetHeight, page.width;
    DifferenceScales(o + t, o, n, w);
    DifferenceScales(n - o, t - o, n, w);
  }

  // ---------------------------------------------------------------------
  // Properties of one split page

  /** On a page with an area, and for a positive nominal width, both halves
      are non-empty rectangles inside the page exactly when the measurements
      are valid: each validity condition is one of the crop bounds. */
  lemma SplitCropConditions(cfg: SplitConfig, page: PageGeometry)
    requires cfg.sourceWidth > 0.0 && Positive(page)
    ensures IsCropOf(FirstHalf(cfg, page), page) && IsCropOf(SecondHalf(cfg, page), page)
            <==> ValidSplit(cfg)
  {
    var f, s := FirstHalf(cfg, page), SecondHalf(cfg, page);
    SplitBoundsConditions(cfg.sourceWidth, page.width, cfg.overlap, cfg.targetHeight,
                          f.lowerLeft.x, f.upperRight.x, s.lowerLeft.x, s.upperRight.x);
  }

  /** The crop bounds of both halves, on plain lengths: `a` to `b` is the first
      half and `c` to `d` the second. */
  lemma SplitBoundsConditions(n: real, w: real, o: real, t: real, a: real, b: real, c: real, d: real)
    requires n > 0.0 && w > 0.0
    requires a == o / n * w && b == (o + t) / n * w
    requires c == (t - o) / n * w && d == (n - o) / n * w
    ensures (0.0 <= a < b <= w && 0.0 <= c < d <= w)
            <==> (0.0 <= o <= t && 0.0 < t < n && t + o <= n)
  {
    ScaledNonNegative(a, o, n, w);
    ScaledLess(a, b, o, o + t, n, w);
    ScaledAtMostWidth(b, o + t, n, w);
    ScaledNonNegative(c, t - o, n, w);
    ScaledLess(c, d, t - o, n - o, n, w);
    ScaledAtMostWidth(d, n - o, n, w);
    BoundsAgree(n, w, o, t, a, b, c, d);
  }

  /** Each crop bound holds exactly when one condition on the nominal lengths
      does, so all of them hold exactly when all the conditions do. */
  lemma BoundsAgree(n: real, w: real, o: real, t: real, a: real, b: real, c: real, d: real)
    requires 0.0 <= a <==> 0.0 <= o
    requires a < b <==> o < o + t
    requires b <= w <==> o + t <= n
    requires 0.0 <= c <==> 0.0 <= t - o
    requires c < d <==> t - o < n - o
    requires d <= w <==> n - o <= n
    ensures (0.0 <= a < b <= w && 0.0 <= c < d <= w)
            <==> (0.0 <= o <= t && 0.0 < t < n && t + o <= n)
  {
  }

  /** With valid measurements, on a page with an area, the first half starts
      at or after the left edge and before its end, the second half ends at or
      before the right edge and after its start, and both span the page's
      full height. */
  lemma SplitCrops(cfg: SplitConfig, page: PageGeometry)
    requires ValidSplit(cfg) && Positive(page)
    ensures 0.0 <= FirstHalf(cfg, page).lowerLeft.x < FirstHalf(cfg, page).upperRight.x
    ensures SecondHalf(cfg, page).lowerLeft.x < SecondHalf(cfg, page).upperRight.x <= page.width
    ensures IsCropOf(FirstHalf(cfg, page), page)
    ensures IsCropOf(SecondHalf(cfg, page), page)
  {
    SplitCropConditions(cfg, page);
  }

  /** Given a positive nominal width, both halves are non-empty rectangles
      inside every page with an area exactly when the measurements are valid. */
  lemma SplitCropsIff(cfg: SplitConfig)
    requires cfg.sourceWidth > 0.0
    ensures ValidSplit(cfg) <==>
      forall page :: Positive(page) ==>
        IsCropOf(FirstHalf(cfg, page), page) && IsCropOf(SecondHalf(cfg, page), page)
  {
    if ValidSplit(cfg) {
      forall page | Positive(page)
        ensures IsCropOf(FirstHalf(cfg, page), page) && IsCropOf(SecondHalf(cfg, page), page)
      {
        SplitCropConditions(cfg, page);
      }
    }
    SplitCropConditions(cfg, PageGeometry(1.0, 1.0));
  }

  /** The band covered by both halves is twice the overlap, scaled. */
  lemma OverlapBand(cfg: SplitConfig, page: PageGeometry)
    requires cfg.sourceWidth != 0.0
    ensures FirstHalf(cfg, page).upperRight.x - SecondHalf(cfg, page).lowerLeft.x
            == 2.0 * cfg.overlap / cfg.sourceWidth * page.width
  {
    var n, o, t := cfg.sourceWidth, cfg.overlap, cfg.targetHeight;
    DifferenceScales(o + t, t - o, n, page.width);
    assert (o + t) - (t - o) == 2.0 * o;
  }

  /** On a page with an area, the second half starts strictly before the first
      half ends exactly when the overlap is positive, and the halves are exactly
      adjacent exactly when the overlap is zero. */
  lemma OverlapIff(cfg: SplitConfig, page: PageGeometry)
    requires cfg.sourceWidth > 0.0 && page.width > 0.0
    ensures SecondHalf(cfg, page).lowerLeft.x < FirstHalf(cfg, page).upperRight.x <==> cfg.overlap > 0.0
    ensures SecondHalf(cfg, page).lowerLeft.x == FirstHalf(cfg, page).upperRight.x <==> cfg.overlap == 0.0
  {
    OverlapBand(cfg, page);
    ScaledEnds(cfg.sourceWidth, page.width);
    ScaledOrder(0.0, 2.0 * cfg.overlap, cfg.sourceWidth, page.width);
    ScaledOrder(2.0 * cfg.overlap, 0.0, cfg.sourceWidth, page.width);
  }

  /** The margin given up at the left edge equals the one given up at the
      right edge: `overlap` on the nominal sheet, scaled. */
  lemma EqualEdgeMargins(cfg: SplitConfig, page: PageGeometry)
    requires cfg.sourceWidth != 0.0
    ensures FirstHalf(cfg, page).lowerLeft.x - 0.0 == page.width - SecondHalf(cfg, page).upperRight.x
    ensures FirstHalf(cfg, page).lowerLeft.x == cfg.overlap / cfg.sourceWidth * page.width
  {
    var n, w := cfg.sourceWidth, page.width;
    DifferenceScales(n, n - cfg.overlap, n, w);
    ScaledEnds(n, w);
  }

  /** On a page of non-zero width the two halves are equally wide exactly when
      the source sheet is twice the target dimension (A3 = 2 x A4); both are
      then `targetHeight` wide on the nominal sheet. */
  lemma EqualHalfWidthsIff(cfg: SplitConfig, page: PageGeometry)
    requires cfg.sourceWidth != 0.0 && page.width != 0.0
    ensures FirstHalf(cfg, page).Width() == SecondHalf(cfg, page).Width()
            <==> cfg.sourceWidth == 2.0 * cfg.targetHeight
    ensures cfg.sourceWidth == 2.0 * cfg.targetHeight ==>
            SecondHalf(cfg, page).Width() == cfg.targetHeight / cfg.sourceWidth * page.width
  {
    var n, t, w := cfg.sourceWidth, cfg.targetHeight, page.width;
    HalfWidths(cfg, page);
    DifferenceScales(t, n - t, n, w);
    assert t / n * w - (n - t) / n * w == 0.0 <==> t - (n - t) == 0.0 by {
      ZeroProduct(t - (n - t), n, w);
    }
  }

  /** Undoing the scaling recovers the nominal measurements: the first half
      starts `overlap` into the nominal sheet and is `targetHeight` wide. */
  lemma ScaleBack(cfg: SplitConfig, page: PageGeometry)
    requires cfg.sourceWidth != 0.0 && page.width != 0.0
    ensures FirstHalf(cfg, page).lowerLeft.x / page.width * cfg.sourceWidth == cfg.overlap
    ensures FirstHalf(cfg, page).Width() / page.width * cfg.sourceWidth == cfg.targetHeight
  {
    HalfWidths(cfg, page);
    Unscale(cfg.overlap, cfg.sourceWidth, page.width);
    Unscale(cfg.targetHeight, cfg.sourceWidth, page.width);
  }

  /** Scaling by `w / n` is undone by scaling by `n / w`. */
  lemma Unscale(a: real, n: real, w: real)
    requires n != 0.0 && w != 0.0
    ensures a / n * w / w * n == a
  {
    assert a / n * w / w == a / n;
    assert a / n * n == a;
  }

  /** The same measurements expressed in another length unit. */
  function InUnit(cfg: SplitConfig, factor: real): SplitConfig {
    SplitConfig(cfg.sourceWidth * factor, cfg.targetHeight * factor, cfg.overlap * factor)
  }

  /** Two sets of measurements with the same four ratios to their source
      width give the same crop boxes. */
  lemma SameRatiosSameCrops(c: SplitConfig, d: SplitConfig, page: PageGeometry)
    requires c.sourceWidth != 0.0 && d.sourceWidth != 0.0
    requires c.overlap / c.sourceWidth == d.overlap / d.sourceWidth
    requires (c.overlap + c.targetHeight) / c.sourceWidth == (d.overlap + d.targetHeight) / d.sourceWidth
    requires (c.targetHeight - c.overlap) / c.sourceWidth == (d.targetHeight - d.overlap) / d.sourceWidth
    requires (c.sourceWidth - c.overlap) / c.sourceWidth == (d.sourceWidth - d.overlap) / d.sourceWidth
    ensures FirstHalf(c, page) == FirstHalf(d, page)
    ensures SecondHalf(c, page) == SecondHalf(d, page)
  {
  }

  /** The crop boxes depend only on ratios of the measurements, so changing
      the length unit changes neither half. */
  lemma UnitChange(cfg: SplitConfig, factor: real, page: PageGeometry)
    requires cfg.sourceWidth != 0.0 && factor != 0.0
    ensures InUnit(cfg, factor).sourceWidth != 0.0
    ensures FirstHalf(InUnit(cfg, factor), page) == FirstHalf(cfg, page)
    ensures SecondHalf(InUnit(cfg, factor), page) == SecondHalf(cfg, page)
  {
    var n, o, t, k := cfg.sourceWidth, cfg.overlap, cfg.targetHeight, factor;
    var scaled := InUnit(cfg, k);
    RatioUnit(o, n, k);
    RatioUnit(o + t, n, k);
    RatioUnit(t - o, n, k);
    RatioUnit(n - o, n, k);
    assert scaled.overlap + scaled.targetHeight == (o + t) * k;
    assert scaled.targetHeight - scaled.overlap == (t - o) * k;
    assert scaled.sourceWidth - scaled.overlap == (n - o) * k;
    SameRatiosSameCrops(scaled, cfg, page);
  }

  /** A ratio of two lengths does not depend on their unit. */
  lemma RatioUnit(a: real, n: real, k: real)
    requires n != 0.0 && k != 0.0
    ensures n * k != 0.0
    ensures (a * k) / (n * k) == a / n
  {
    assert (a / n) * (n * k) == a * k;
  }

  // ---------------------------------------------------------------------
  // The per-page loop

  /** The output document of the split: for every input page, in order, its
      left half followed by its right half. */
  function SplitDocument(cfg: SplitConfig, pages: seq<PageGeometry>): seq<OutputPage>
    requires cfg.sourceWidth != 0.0
  {
    if pages == [] then []
    else
      var i := |pages| - 1;
      SplitDocument(cfg, pages[..i])
        + [OutputPage(i, FirstHalf(cfg, pages[i])), OutputPage(i, SecondHalf(cfg, pages[i]))]
  }

  /** N input pages give 2N output pages; output 2i is the first half of input
      page i and output 2i+1 is its second half. */
  lemma {:induction false} SplitDocumentLayout(cfg: SplitConfig, pages: seq<PageGeometry>)
    requires cfg.sourceWidth != 0.0
    ensures |SplitDocument(cfg, pages)| == 2 * |pages|
    ensures forall i :: 0 <= i < |pages| ==>
      SplitDocument(cfg, pages)[2 * i] == OutputPage(i, FirstHalf(cfg, pages[i])) &&
      SplitDocument(cfg, pages)[2 * i + 1] == OutputPage(i, SecondHalf(cfg, pages[i]))
  {
    if pages != [] {
      var n := |pages| - 1;
      var prefix := pages[..n];
      SplitDocumentLayout(cfg, prefix);
      forall i | 0 <= i < |pages|
        ensures SplitDocument(cfg, pages)[2 * i] == OutputPage(i, FirstHalf(cfg, pages[i]))
        ensures SplitDocument(cfg, pages)[2 * i + 1] == OutputPage(i, SecondHalf(cfg, pages[i]))
      {
        if i < n {
          assert prefix[i] == pages[i];
        }
      }
    }
  }

  /** With valid measurements and input pages that all have an area, every
      output page comes from an existing input page and its crop box is a
      non-empty rectangle inside that page. */
  lemma SplitDocumentCrops(cfg: SplitConfig, pages: seq<PageGeometry>)
    requires ValidSplit(cfg)
    requires forall i :: 0 <= i < |pages| ==> Positive(pages[i])
    ensures forall k :: 0 <= k < |SplitDocument(cfg, pages)| ==>
      SplitDocument(cfg, pages)[k].source < |pages| &&
      IsCropOf(SplitDocument(cfg, pages)[k].crop, pages[SplitDocument(cfg, pages)[k].source])
  {
    var doc := SplitDocument(cfg, pages);
    SplitDocumentLayout(cfg, pages);
    forall k | 0 <= k < |doc|
      ensures doc[k].source < |pages| && IsCropOf(doc[k].crop, pages[doc[k].source])
    {
      var i := k / 2;
      assert k == 2 * i || k == 2 * i + 1;
      SplitCrops(cfg, pages[i]);
    }
  }

  /** The loop over all input pages: each page is copied twice, the copies are
      given the first-half and second-half crop boxes, and both are appended
      to the output, left half first. */
  method SplitPages(cfg: SplitConfig, pages: seq<PageGeometry>) returns (output: seq<OutputPage>)
    requires cfg.sourceWidth != 0.0
    ensures output == SplitDocument(cfg, pages)
  {
    output := [];
    for i := 0 to |pages|
      invariant output == SplitDocument(cfg, pages[..i])
    {
      assert pages[..i + 1][..i] == pages[..i];
      var firstHalf := OutputPage(i, FirstHalf(cfg, pages[i]));
      output := output + [firstHalf];
      var secondHalf := OutputPage(i, SecondHalf(cfg, pages[i]));
      output := output + [secondHalf];
    }
    assert pages[..|pages|] == pages;
  }
}
