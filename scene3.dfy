/** The report-extraction scene: three report documents are scanned one
    after the other, then the extracted table fills row by row while a
    progress label counts up. The interpolations that drive it are
    parameters: each document's `scanProgress` and the eased
    `extractionProgress`, both clamped to [0, 1]. */
module PdfScene {
  import opened Util
  import opened Data

  /** The number of documents the scene shows. */
  const DOCUMENT_COUNT: nat := 3

  /** The frame offset of document `index`'s entrance spring. */
  function DocumentEntrance(fps: nat, index: nat): (d: int)
    ensures d >= 0
    ensures fps == 30 ==> d == 9 * index
  {
    index * JsRound(0.3 * fps as real)
  }

  /** The first and last frame of document `index`'s scan. */
  function ScanStart(fps: nat, index: nat): int {
    JsRound((2.0 + index as real * 1.5) * fps as real)
  }
  function ScanEnd(fps: nat, index: nat): int {
    JsRound((4.0 + index as real * 1.5) * fps as real)
  }

  /** Each scan takes two seconds, and each document starts its scan
      1.5 seconds after the previous one, so later documents start later. */
  lemma ScanScheduleOrdered(fps: nat, index: nat)
    requires fps > 0
    ensures ScanEnd(fps, index) - ScanStart(fps, index) == 2 * fps
    ensures ScanStart(fps, index) < ScanStart(fps, index + 1)
  {
    var x := (2.0 + index as real * 1.5) * fps as real;
    var y := (2.0 + (index + 1) as real * 1.5) * fps as real;
    var z := (4.0 + index as real * 1.5) * fps as real;
    assert y == x + 1.5 * fps as real;
    assert z == x + (2 * fps) as real;
  }

  /** With three documents the last scan ends exactly when the extraction
      starts, and every scan has ended by then. */
  lemma ScansEndAtExtractionStart(fps: nat)
    ensures ScanEnd(fps, DOCUMENT_COUNT - 1) == ExtractionStart(fps)
    ensures forall i: nat :: i < DOCUMENT_COUNT ==> ScanEnd(fps, i) <= ExtractionStart(fps)
  {
    assert (4.0 + 2 as real * 1.5) * fps as real == (7 * fps) as real;
    assert (4.0 + 1 as real * 1.5) * fps as real <= (7 * fps) as real;
    assert (4.0 + 0 as real * 1.5) * fps as real <= (7 * fps) as real;
  }

  /** At 30 frames per second the scans are [60, 120], [105, 165] and
      [150, 210]: each document's scan overlaps the next one's. */
  lemma ScanScheduleAt30()
    ensures ScanStart(30, 0) == 60 && ScanEnd(30, 0) == 120
    ensures ScanStart(30, 1) == 105 && ScanEnd(30, 1) == 165
    ensures ScanStart(30, 2) == 150 && ScanEnd(30, 2) == 210
    ensures ScanStart(30, 1) < ScanEnd(30, 0) && ScanStart(30, 2) < ScanEnd(30, 1)
  {
    assert (2.0 + 1 as real * 1.5) * 30 as real == 105.0;
    assert (4.0 + 1 as real * 1.5) * 30 as real == 165.0;
    assert (2.0 + 2 as real * 1.5) * 30 as real == 150.0;
    assert (4.0 + 2 as real * 1.5) * 30 as real == 210.0;
  }

  /** What a document draws for a scan progress: the moving scan line, the
      tinted overlay over the scanned part with its bottom border, and the
      completion checkmark. */
  datatype ScanView = ScanView(line: bool, overlay: bool, overlayBorder: bool, check: bool)

  function View(scanProgress: real): ScanView {
    ScanView(
      scanProgress > 0.0 && scanProgress < 1.0,
      scanProgress > 0.0,
      scanProgress > 0.0 && scanProgress < 1.0,
      scanProgress >= 1.0)
  }

  /** Over the clamped range a document is in one of three phases: untouched
      at 0, being scanned strictly between 0 and 1 (line, overlay and its
      border), done at 1 (overlay and checkmark, no line, no border). */
  lemma ScanPhases(scanProgress: real)
    requires 0.0 <= scanProgress <= 1.0
    ensures var v := View(scanProgress);
      && (scanProgress == 0.0 <==> !v.line && !v.overlay && !v.overlayBorder && !v.check)
      && (0.0 < scanProgress < 1.0 <==> v.line && v.overlay && v.overlayBorder && !v.check)
      && (scanProgress == 1.0 <==> !v.line && v.overlay && !v.overlayBorder && v.check)
  {
  }

  /** The scan line and the checkmark are never drawn together; the
      overlay's border is drawn exactly with the line; both the line and
      the checkmark come with the overlay. */
  lemma ScanFlagsConsistent(scanProgress: real)
    ensures var v := View(scanProgress);
      !(v.line && v.check) && v.overlayBorder == v.line
      && (v.line ==> v.overlay) && (v.check ==> v.overlay)
  {
  }

  /** `extractionStart`: seven seconds in. */
  function ExtractionStart(fps: nat): (s: int)
    ensures s == 7 * fps
  {
    JsRound(7.0 * fps as real)
  }

  /** The last frame of the extraction interpolation, five seconds after
      its start. */
  function ExtractionEnd(fps: nat): (e: int)
    ensures e == ExtractionStart(fps) + 5 * fps
  {
    ExtractionStart(fps) + JsRound(5.0 * fps as real)
  }

  /** `extractedRowCount`: `floor(progress * (rows + 1))`, capped at the
      number of rows. */
  function ExtractedRowCount(extractionProgress: real): (n: nat)
    requires 0.0 <= extractionProgress <= 1.0
    ensures n <= |PDF_DATA|
  {
    var f := JsFloor(extractionProgress * (|PDF_DATA| + 1) as real);
    if f < |PDF_DATA| then f else |PDF_DATA|
  }

  /** At least `k` rows are shown exactly when the progress has reached
      `k / (rows + 1)`. */
  lemma ExtractedRowCountBands(extractionProgress: real, k: nat)
    requires 0.0 <= extractionProgress <= 1.0
    requires k <= |PDF_DATA|
    ensures ExtractedRowCount(extractionProgress) >= k <==>
      extractionProgress * (|PDF_DATA| + 1) as real >= k as real
  {
  }

  /** No row at the start, all rows at the end, and all rows already from
      progress 5/6 on, because the multiplier is one more than the number
      of rows. */
  lemma ExtractedRowCountEnds(extractionProgress: real)
    requires 0.0 <= extractionProgress <= 1.0
    ensures extractionProgress == 0.0 ==> ExtractedRowCount(extractionProgress) == 0
    ensures extractionProgress == 1.0 ==> ExtractedRowCount(extractionProgress) == |PDF_DATA|
    ensures extractionProgress >= 5.0 / 6.0 ==> ExtractedRowCount(extractionProgress) == |PDF_DATA|
    ensures extractionProgress < 1.0 / 6.0 ==> ExtractedRowCount(extractionProgress) == 0
  {
    ExtractedRowCountBands(extractionProgress, |PDF_DATA|);
    ExtractedRowCountBands(extractionProgress, 1);
  }

  /** Rows never disappear once shown. */
  lemma ExtractedRowCountMonotone(p: real, q: real)
    requires 0.0 <= p <= q <= 1.0
    ensures ExtractedRowCount(p) <= ExtractedRowCount(q)
  {
    var k := ExtractedRowCount(p);
    ExtractedRowCountBands(p, k);
    ExtractedRowCountBands(q, k);
  }

  /** `PDF_DATA.slice(0, extractedRowCount)`. */
  function ExtractedRows(extractionProgress: real): (rows: seq<Company>)
    requires 0.0 <= extractionProgress <= 1.0
    ensures |rows| == ExtractedRowCount(extractionProgress)
    ensures forall i :: 0 <= i < |rows| ==> rows[i] == PDF_DATA[i]
  {
    PDF_DATA[..ExtractedRowCount(extractionProgress)]
  }

  /** The frame offset of extracted row `i`'s entrance spring. */
  function RowTrigger(fps: nat, i: nat): (t: int)
    ensures t >= ExtractionStart(fps)
  {
    ExtractionStart(fps) + i * 10
  }

  /** Extracted rows enter ten frames apart, in order. */
  lemma RowTriggerIncreasing(fps: nat, i: nat, j: nat)
    requires i < j
    ensures RowTrigger(fps, i) < RowTrigger(fps, j)
    ensures RowTrigger(fps, j) - RowTrigger(fps, i) == 10 * (j - i)
  {
  }

  /** The percentage label. */
  function PercentLabel(extractionProgress: real): (pct: int)
    requires 0.0 <= extractionProgress <= 1.0
    ensures 0 <= pct <= 100
    ensures extractionProgress == 0.0 ==> pct == 0
    ensures extractionProgress == 1.0 ==> pct == 100
  {
    JsRound(extractionProgress * 100.0)
  }

  /** The label never counts down. */
  lemma PercentLabelMonotone(p: real, q: real)
    requires 0.0 <= p <= q <= 1.0
    ensures PercentLabel(p) <= PercentLabel(q)
  {
  }
}
