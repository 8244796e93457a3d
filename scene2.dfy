/** The Bloomberg-data scene: a highlight sweeps over the first rows of the
    table, and a scan line passes over it. The two interpolations that drive
    them are parameters: `highlightRowProgress`, clamped to [-1, 2], and the
    eased `scanLineY`, clamped to [-10, 110]. */
module ExcelScene {
  import opened Util
  import opened Data
  import opened DataTable

  /** The frames at which the highlight interpolation starts and ends
      (`Math.round(6 * fps)`, `Math.round(7 * fps)`): whole seconds, so the
      rounding changes nothing and the sweep lasts one second. */
  function HighlightWindow(fps: nat): (w: (int, int))
    ensures w == (6 * fps, 7 * fps)
    ensures w.1 - w.0 == fps
  {
    (JsRound(6.0 * fps as real), JsRound(7.0 * fps as real))
  }

  /** `highlightRow`: the integer part of the progress while it lies in
      [0, 4], undefined otherwise. */
  function HighlightRow(progress: real): (r: Option<int>)
    ensures r.Some? <==> 0.0 <= progress <= 4.0
    ensures r.Some? ==> r.value as real <= progress < r.value as real + 1.0
  {
    if progress >= 0.0 && progress <= 4.0 then Some(JsFloor(progress)) else None
  }

  /** Before the sweep reaches row 0 nothing is highlighted. */
  lemma NoHighlightBeforeSweep(progress: real)
    requires progress < 0.0
    ensures HighlightRow(progress) == None
    ensures forall row: nat :: !IsHighlighted(HighlightRow(progress), row)
  {
  }

  /** Over the clamped range [-1, 2] a highlighted row is 0, 1 or 2, hence
      a row of the table; rows 3 and 4 are never highlighted. */
  lemma HighlightStaysInFirstRows(progress: real)
    requires -1.0 <= progress <= 2.0
    ensures HighlightRow(progress).Some? ==>
      0 <= HighlightRow(progress).value <= 2 && HighlightRow(progress).value < |EXCEL_DATA|
    ensures !IsHighlighted(HighlightRow(progress), 3) && !IsHighlighted(HighlightRow(progress), 4)
  {
  }

  /** Every row from 0 to 2 is highlighted for some progress in the clamped
      range (row 2 only at its upper end, 2.0): the progress equal to the row
      number selects exactly that row. */
  lemma EachFirstRowIsReached(row: nat)
    requires row <= 2
    ensures IsHighlighted(HighlightRow(row as real), row)
    ensures HighlightRow(row as real) == Some(row)
  {
  }

  /** The highlighted row never moves back as the progress grows. */
  lemma HighlightMonotone(p: real, q: real)
    requires 0.0 <= p <= q <= 4.0
    ensures HighlightRow(p).value <= HighlightRow(q).value
  {
  }

  /** The scan line is drawn while it lies strictly inside the table. */
  function ScanLineVisible(scanLineY: real): (b: bool)
    ensures b <==> 0.0 < scanLineY < 100.0
  {
    scanLineY > 0.0 && scanLineY < 100.0
  }

  /** The scan line is hidden at both clamped ends of its interpolation,
      so it is absent before the sweep and after it. */
  lemma ScanLineHiddenAtEnds()
    ensures !ScanLineVisible(-10.0) && !ScanLineVisible(110.0)
    ensures ScanLineVisible(50.0)
  {
  }
}
