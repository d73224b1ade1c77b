/**
 * Pagination of the PDF summary: the report is rendered to one image of
 * height `imgHeight` (in the page's units), and the image is drawn once per
 * A4 page of height `pdfHeight`, each time shifted up by one page so that
 * page k shows the k-th page-sized band of the image.
 *
 * The jsPDF document is abstracted to the list of vertical offsets at which
 * the image is drawn, one per page, in page order; `addPage` is appending to
 * that list.
 */
module PdfPagination {

  /** The least integer not below `x`. */
  function Ceil(x: real): (c: int)
    ensures c as real - 1.0 < x <= c as real
  {
    -((-x).Floor)
  }

  /** `max(1, ceil(imgHeight / pdfHeight))` */
  function PageCount(imgHeight: real, pdfHeight: real): nat
    requires pdfHeight > 0.0
  {
    var c := Ceil(imgHeight / pdfHeight);
    if c < 1 then 1 else c
  }

  /** Comparing with a multiple of the page height is comparing the ratio. */
  lemma CompareByRatio(imgHeight: real, pdfHeight: real, k: real)
    requires pdfHeight > 0.0
    ensures imgHeight <= k * pdfHeight <==> imgHeight / pdfHeight <= k
    ensures k * pdfHeight < imgHeight <==> k < imgHeight / pdfHeight
    ensures k * pdfHeight <= imgHeight <==> k <= imgHeight / pdfHeight
    ensures imgHeight < k * pdfHeight <==> imgHeight / pdfHeight < k
  {
    var q := imgHeight / pdfHeight;
    assert imgHeight == q * pdfHeight;
    if q < k {
      assert q * pdfHeight < k * pdfHeight;
    } else if q == k {
    } else {
      assert k * pdfHeight < q * pdfHeight;
    }
  }

  /** `n` pages are the fewest, and at least one, that cover `ratio` page heights. */
  predicate LeastCover(ratio: real, n: nat)
  {
    && n >= 1
    && ratio <= n as real
    && (n == 1 || (n - 1) as real < ratio)
  }

  /** There is only one least covering page count. */
  lemma LeastCoverUnique(ratio: real, n: nat, m: nat)
    requires LeastCover(ratio, n) && LeastCover(ratio, m)
    ensures n == m
  {
  }

  /**
   * The page count is the least number of pages, at least one, whose total
   * height covers the image: one page fewer would not.
   */
  lemma PageCountIsLeast(imgHeight: real, pdfHeight: real)
    requires pdfHeight > 0.0
    ensures PageCount(imgHeight, pdfHeight) >= 1
    ensures imgHeight <= PageCount(imgHeight, pdfHeight) as real * pdfHeight
    ensures PageCount(imgHeight, pdfHeight) > 1 ==>
              (PageCount(imgHeight, pdfHeight) - 1) as real * pdfHeight < imgHeight
  {
    var count := PageCount(imgHeight, pdfHeight);
    assert LeastCover(imgHeight / pdfHeight, count);
    CompareByRatio(imgHeight, pdfHeight, count as real);
    CompareByRatio(imgHeight, pdfHeight, (count - 1) as real);
  }

  /**
   * The pagination loop of downloadPDF: the first page draws the image at
   * offset 0, and while some of the image is left below the pages drawn so
   * far another page is added that draws it one page height higher.
   */
  method PagePositions(imgHeight: real, pdfHeight: real) returns (positions: seq<real>)
    requires pdfHeight > 0.0
    ensures |positions| == PageCount(imgHeight, pdfHeight)
    ensures forall k :: 0 <= k < |positions| ==> positions[k] == -(k as real) * pdfHeight
  {
    var count := PageCount(imgHeight, pdfHeight);
    assert LeastCover(imgHeight / pdfHeight, count);
    var heightLeft := imgHeight;
    var position := 0.0;
    positions := [position];
    heightLeft := heightLeft - pdfHeight;
    while heightLeft > 0.0
      invariant 1 <= |positions| <= count
      invariant heightLeft == imgHeight - |positions| as real * pdfHeight
      invariant |positions| == 1 || (|positions| - 1) as real < imgHeight / pdfHeight
      invariant forall k :: 0 <= k < |positions| ==> positions[k] == -(k as real) * pdfHeight
      decreases count - |positions|
    {
      CompareByRatio(imgHeight, pdfHeight, |positions| as real);
      position := heightLeft - imgHeight;
      positions := positions + [position];
      heightLeft := heightLeft - pdfHeight;
    }
    CompareByRatio(imgHeight, pdfHeight, |positions| as real);
    LeastCoverUnique(imgHeight / pdfHeight, |positions|, count);
  }

  /** The page whose band of the image holds height `y` (0-based). */
  function PageOf(y: real, pdfHeight: real): int
    requires pdfHeight > 0.0
  {
    (y / pdfHeight).Floor
  }

  /**
   * Every height of the image falls on one of the pages: page k draws the
   * image at offset -k * pdfHeight and so shows the band from k * pdfHeight
   * up to (k + 1) * pdfHeight.
   */
  lemma EveryBandDrawn(imgHeight: real, pdfHeight: real, y: real)
    requires pdfHeight > 0.0 && 0.0 <= y < imgHeight
    ensures 0 <= PageOf(y, pdfHeight) < PageCount(imgHeight, pdfHeight)
    ensures PageOf(y, pdfHeight) as real * pdfHeight <= y < (PageOf(y, pdfHeight) + 1) as real * pdfHeight
  {
    var k := PageOf(y, pdfHeight);
    var count := PageCount(imgHeight, pdfHeight);
    assert LeastCover(imgHeight / pdfHeight, count);
    CompareByRatio(y, pdfHeight, 0.0);
    CompareByRatio(y, pdfHeight, k as real);
    CompareByRatio(y, pdfHeight, (k + 1) as real);
    assert y / pdfHeight < imgHeight / pdfHeight by {
      var q := y / pdfHeight;
      assert y == q * pdfHeight;
      CompareByRatio(imgHeight, pdfHeight, q);
    }
  }
}
