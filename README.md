# Crop geometry of the A3-to-A4 PDF tools

This project models the crop-box arithmetic of three small PDF scripts:

- **Split with overlap** (`a3/a3_to_a4.py`, and again in `main.py` with the
  constants in centimetres). Each landscape A3 page becomes two A4 pages. The
  left copy is cropped from `overlapping` to `overlapping + A4_HEIGHT` on the
  nominal sheet, and the right copy from `A4_HEIGHT - overlapping` to
  `A3_WIDTH - overlapping`. Every length is divided by `A3_WIDTH` and scaled by
  the measured page width. Both copies keep the full page height. The two
  halves share a band of `2 * overlapping` in the middle, so the printer's
  margin loses nothing there. Pages are emitted left half first, page by page.
- **Fixed-margin trim** (`a3_trim.py`). A scan of 432.65 x 297.01 mm is cut
  back to A3 (420 x 297 mm) by moving the crop box's lower-left corner in by the
  excess, scaled to the page. The upper-right corner stays at the page's own
  extent. Only page 0 of the input is processed.

Modules:

- `Geometry` (`geometry.dfy`): points, crop rectangles, the measured page
  geometry, output pages, and the facts about scaled fractions that both
  operations use.
- `Split` (`split.dfy`): the split formulas, written once and parameterised by
  a `SplitConfig` (source width, target dimension, overlap). Also the output
  document as a function, `SplitDocument`, and the per-page loop, `SplitPages`,
  proved to build it.
- `A3ToA4` (`a3_to_a4.dfy`): the millimetre constants. The script's loop is
  `Split.SplitPages` run with them.
- `MainScript` (`main_script.dfy`): the centimetre constants, whose loop is
  again `Split.SplitPages`. A proof that, in
  exact arithmetic, they give the same crops and the same document as the
  millimetre constants.
- `Trim` (`trim.dfy`): the trim formula, the scanner constants and the
  first-page-only pipeline.

Modelling choices:

- All quantities are `real`; the properties are exact.
- An input page is its measured media box `(width, height)`, with its
  lower-left corner at the origin, as the scripts assume when they read only
  `getUpperRight_x/y`.
- An output page is a value `OutputPage(source, crop)`: which input page was
  copied, and the crop box set on the copy.
- The output document being written is the sequence of output pages.
- `a3/a3_to_a4.py` divides integer constants. The model takes this as true
  division, as in Python 3, which that file names as its requirement.
- The scripts do not validate their constants. So the formulas only require a
  non-zero divisor (zero would raise a division error in Python). Validity of
  the measurements (`ValidSplit`, `ValidTrim`) is a hypothesis of the lemmas,
  and it is proved equivalent to "every crop is a non-empty rectangle inside
  its page".
- `a3_trim.py` reads page 0 of an empty document. The model turns that into
  the error value `PageIndexOutOfRange(0)`.

## Model

| member | source | states |
|---|---|---|
| Split.FirstHalf | a3/a3_to_a4.py:101-106 | the left crop, from `overlapping` to `overlapping + A4_HEIGHT` scaled by `page_width/A3_WIDTH`, over the full height (also main.py:72-77); its properties are stated by `FullHeight`, `HalfWidths`, `SplitCropConditions`, `OverlapBand`, `EqualEdgeMargins`, `ScaleBack` and `UnitChange` |
| Split.SecondHalf | a3/a3_to_a4.py:112-117 | the right crop, from `A4_HEIGHT - overlapping` to `A3_WIDTH - overlapping` scaled by `page_width/A3_WIDTH`, over the full height (also main.py:83-88); its properties are stated by the same lemmas as `FirstHalf` |
| Split.SplitDocument | a3/a3_to_a4.py:93-117 | the output document: for each input page in order, its left half then its right half (also main.py:64-88); its layout is stated by `SplitDocumentLayout`, its crops by `SplitDocumentCrops`, and `SplitPages` is proved to build it |
| Split.FullHeight | a3/a3_to_a4.py:104-116 | both crops span y from 0 to the page height, so the vertical extent is unchanged |
| Split.HalfWidths | a3/a3_to_a4.py:101-113 | the left crop is `A4_HEIGHT/A3_WIDTH` of the page width wide, the right crop `(A3_WIDTH-A4_HEIGHT)/A3_WIDTH` |
| Split.SplitCropConditions | a3/a3_to_a4.py:101-116 | for a positive source width and a page of positive size, both halves are non-empty crops inside the page iff `0 <= overlapping <= A4_HEIGHT`, `0 < A4_HEIGHT < A3_WIDTH` and `A4_HEIGHT + overlapping <= A3_WIDTH` |
| Split.SplitCrops | a3/a3_to_a4.py:101-116 | with valid measurements and a page of positive size: first start >= 0 and < first end, second end <= page width and > second start, both inside the page |
| Split.SplitCropsIff | a3/a3_to_a4.py:101-116 | for a positive source width, both halves are non-empty crops of every positive page if and only if the measurements are valid |
| Split.OverlapBand | a3/a3_to_a4.py:102-112 | the first half's end minus the second half's start is `2*overlapping/A3_WIDTH` of the page width |
| Split.OverlapIff | a3/a3_to_a4.py:102-112 | on a page of positive width, the second half starts strictly before the first ends iff overlap > 0, and the halves are exactly adjacent iff overlap = 0 |
| Split.EqualEdgeMargins | a3/a3_to_a4.py:101-113 | the margin lost at the left edge equals the margin lost at the right edge, both `overlapping/A3_WIDTH` of the page width |
| Split.EqualHalfWidthsIff | a3/a3_to_a4.py:101-113 | on a page of non-zero width, the halves are equally wide iff `A3_WIDTH = 2*A4_HEIGHT`, and then both are `A4_HEIGHT/A3_WIDTH` of the page width |
| Split.ScaleBack | a3/a3_to_a4.py:101-102 | scaling the first crop back by `A3_WIDTH/page_width` recovers `overlapping` as its start and `A4_HEIGHT` as its width |
| Split.UnitChange | main.py:72-84 | multiplying all three measurements by a non-zero factor, i.e. a change of unit, leaves both crops unchanged |
| Split.SplitDocumentLayout | a3/a3_to_a4.py:93-117 | N input pages give 2N output pages; output 2i is the first half of input page i, output 2i+1 its second half |
| Split.SplitDocumentCrops | a3/a3_to_a4.py:93-117 | with valid measurements and positive pages, every output page comes from an existing input page and its crop lies non-empty inside that page |
| Split.SplitPages | a3/a3_to_a4.py:93-117 | the loop appends, for each page in order, the left then the right half; its result is exactly the split document (whose layout `SplitDocumentLayout` gives) |
| A3ToA4.MillimetreSplitValid | a3/a3_to_a4.py:55-64 | the mm constants (420, 210, 4) are valid split measurements, and the two halves are equally wide |
| A3ToA4.DocumentedBoundaries | a3/a3_to_a4.py:13-17 | on a 420-unit-wide page the crops are exactly 4 to 214 and 206 to 416, over the full height |
| A3ToA4.MillimetreDocumentCrops | a3/a3_to_a4.py:93-117 | with the mm constants and input pages of positive size, the output has 2N pages; pages 2i and 2i+1 are copied from input page i and each is cropped to a non-empty rectangle inside it |
| MainScript.AgreesWithMillimetre | main.py:48-54 | the cm constants (42, 21, 0.4) give exactly the same two crops as the mm constants on every page |
| MainScript.SameDocumentAsMillimetre | main.py:64-88 | so the two scripts build the same output document from the same input pages |
| MainScript.DocumentedBoundaries | main.py:72-84 | on a 42-unit-wide page the crops are 0.4 to 21.4 and 20.6 to 41.6, over the full height |
| MainScript.CentimetreSplitCrops | main.py:72-84 | with the cm constants, both halves are non-empty crops inside every positive page, they overlap, and the edge losses are equal |
| Trim.LeftTrim | a3_trim.py:53 | the left trim is non-negative iff the sheet is no wider than the scan, and smaller than the scan width iff the sheet has a positive width |
| Trim.BottomTrim | a3_trim.py:54 | the bottom trim is non-negative iff the sheet is no taller than the scan, and smaller than the scan height iff the sheet has a positive height |
| Trim.TrimCrop | a3_trim.py:92-96 | the upper-right corner is the page's own extent, so the right and top edges are never trimmed, and the retained size is `page*A3/SCAN_AREA` in each direction |
| Trim.ScannerTrimAmounts | a3_trim.py:45-54 | `left_trim = 12.65` and `bottom_trim = 0.01`, both positive and below the scan-area dimensions |
| Trim.TrimCrops | a3_trim.py:92-96 | with valid measurements and a positive page, the lower-left corner lies in [0, width) x [0, height) and the crop is inside the page |
| Trim.TrimCropsIff | a3_trim.py:92-96 | for a positive scan area, the crop is non-empty and inside every positive page iff the nominal sheet is positive and no larger than the scan area |
| Trim.NoOpTrimIff | a3_trim.py:53-95 | on a positive page, the lower-left corner is (0,0) iff the scan-area dimensions equal the nominal ones |
| Trim.TrimFirstPage | a3_trim.py:83-98 | the output exists iff the input has at least one page; it is then exactly one page, copied from page 0 with the trim crop; otherwise reading page 0 fails |
| Trim.TrimIgnoresLaterPages | a3_trim.py:83-98 | pages after the first have no effect on the output |
| Trim.ScannerTrimOutput | a3_trim.py:83-98 | with the scanner constants, a document whose first page is positive yields one non-empty crop of page 0 |

## Left out

- Command-line parsing (`getopt`), usage messages and `sys.exit` in `a3/a3_to_a4.py` and `a3_trim.py`: input/output plumbing.
- Opening, reading and writing PDF files (`PdfFileReader`, `getNumPages`, `getPage`, `PdfFileWriter.addPage`, `write`), the progress `print`s, and the fixed `in.pdf`/`out.pdf` names of `main.py`. These are calls into the PDF library. Input pages are given as a sequence of measured geometries, and the output document is the returned sequence of output pages.
- The library's `copy.copy` of a page and its `cropBox` setters: each derived page is an independent value, and no sharing between copies is modelled.
- IEEE-754 rounding: Python floats are modelled as exact reals. So `0.4/42` and `4/420` are equal here, and `432.65 - 420` is exactly 12.65.
- `A3_HEIGHT` and `A4_WIDTH` of both split scripts are declared as constants, but no formula uses them.
- No validation of the constants: the scripts do not reject invalid measurements, which then give an empty or out-of-page crop. `Split.SplitCropsIff` and `Trim.TrimCropsIff` state exactly when this happens. The trim script always processes page 0 only, and the model does the same.
- The page's media-box lower-left corner: the scripts use only the upper-right corner and put the crops' lower edge at y = 0, and the model does the same.
