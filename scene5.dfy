/** The correction scene: one card per annotated difference, each playing
    its correction in its own window of four seconds, one second apart. The
    eased `progress` of a card is a parameter clamped to [0, 1]. */
module CorrectionScene {
  import opened Util
  import opened Data

  /** `correctionDuration` and `correctionGap`. */
  function CorrectionDuration(fps: nat): nat { 4 * fps }
  function CorrectionGap(fps: nat): nat { 1 * fps }

  /** `startFrame` of card `idx`: two seconds in, then one slot of duration
      plus gap per earlier card. */
  function StartFrame(fps: nat, idx: nat): (s: int)
    ensures s == 2 * fps + idx * 5 * fps
  {
    JsRound(2.0 * fps as real) + idx * (CorrectionDuration(fps) + CorrectionGap(fps))
  }

  /** The last frame of card `idx`'s progress interpolation. */
  function EndFrame(fps: nat, idx: nat): (e: int)
    ensures e - StartFrame(fps, idx) == 4 * fps
  {
    StartFrame(fps, idx) + CorrectionDuration(fps)
  }

  /** The frame at which card `idx`'s entrance spring starts: half a second
      (rounded) before its correction. */
  function CardEntrance(fps: nat, idx: nat): (t: int)
    ensures t <= StartFrame(fps, idx)
    ensures fps == 30 ==> t == StartFrame(fps, idx) - 15
  {
    StartFrame(fps, idx) - JsRound(0.5 * fps as real)
  }

  /** The next card's correction starts exactly one gap after the previous
      one ends; so, for a positive frame rate, windows of different cards
      never share a frame. */
  lemma CorrectionWindowsDisjoint(fps: nat, i: nat, j: nat)
    requires fps > 0 && i < j
    ensures StartFrame(fps, i + 1) == EndFrame(fps, i) + CorrectionGap(fps)
    ensures EndFrame(fps, i) < StartFrame(fps, j)
  {
    assert j * 5 * fps >= (i + 1) * 5 * fps by {
      MulMonotone(i + 1, j, 5 * fps);
    }
  }

  lemma MulMonotone(a: nat, b: nat, c: nat)
    requires a <= b
    ensures a * c <= b * c
  {
  }

  /** At most one card is playing its correction at any frame. */
  lemma AtMostOneCorrectionPlaying(fps: nat, f: int, i: nat, j: nat)
    requires fps > 0
    requires StartFrame(fps, i) <= f <= EndFrame(fps, i)
    requires StartFrame(fps, j) <= f <= EndFrame(fps, j)
    ensures i == j
  {
    if i < j {
      CorrectionWindowsDisjoint(fps, i, j);
    } else if j < i {
      CorrectionWindowsDisjoint(fps, j, i);
    }
  }

  /** From 2 frames per second on, the next card starts entering only after
      the previous correction has finished; at 1 frame per second the half
      second rounds up to a whole one and the two coincide. */
  lemma EntranceAfterPreviousCorrection(fps: nat, idx: nat)
    ensures fps >= 2 ==> EndFrame(fps, idx) < CardEntrance(fps, idx + 1)
    ensures fps == 1 ==> EndFrame(fps, idx) == CardEntrance(fps, idx + 1)
  {
  }

  /** At 30 frames per second the three corrections play over local frames
      [60, 180], [210, 330] and [360, 480], all inside the 600 frames of
      the scene's window. */
  lemma ScheduleFitsScene()
    ensures StartFrame(FPS, 0) == 60 && EndFrame(FPS, 0) == 180
    ensures StartFrame(FPS, 1) == 210 && EndFrame(FPS, 1) == 330
    ensures StartFrame(FPS, 2) == 360 && EndFrame(FPS, 2) == 480
    ensures EndFrame(FPS, |MISMATCHES| - 1) < SCENE_TIMING[4].duration
  {
  }

  /** What card `idx` shows: the company name, the column label, the
      Bloomberg figure and the report figure. */
  datatype Card = Card(company: string, columnLabel: string, oldValue: string, newValue: string)

  /** The card of annotation `idx`; its row and column index stay in range
      of both tables and of the label table. */
  function CardOf(idx: nat): (c: Card)
    requires idx < |MISMATCHES|
    ensures var m := MISMATCHES[idx];
      0 <= m.row < |EXCEL_DATA| && 0 <= m.columnIndex < |COLUMN_LABELS|
      && c.company == EXCEL_DATA[m.row].name
      && c.columnLabel == COLUMN_LABELS[m.columnIndex]
      && c.oldValue == CellAt(EXCEL_DATA[m.row], m.columnIndex)
      && c.newValue == CellAt(PDF_DATA[m.row], m.columnIndex)
      && c.oldValue != c.newValue
  {
    var m := MISMATCHES[idx];
    MismatchesWellFormed();
    assert WellFormedMismatch(m);
    Card(EXCEL_DATA[m.row].name, COLUMN_LABELS[m.columnIndex], m.excelValue, m.pdfValue)
  }

  /** The colour switches of a card over its progress. */
  function BorderSuccess(progress: real): (b: bool)
    ensures b <==> progress > 0.8
  {
    progress > 0.8
  }

  function VerifiedSuccess(progress: real): (b: bool)
    ensures b <==> progress > 0.7
  {
    progress > 0.7
  }

  /** The verified value turns green before the card's border does; at
      the start of a correction neither is green, at its end both are. */
  lemma ColourSwitchOrder(progress: real)
    requires 0.0 <= progress <= 1.0
    ensures BorderSuccess(progress) ==> VerifiedSuccess(progress)
    ensures progress == 0.0 ==> !BorderSuccess(progress) && !VerifiedSuccess(progress)
    ensures progress == 1.0 ==> BorderSuccess(progress) && VerifiedSuccess(progress)
    ensures 0.7 < progress <= 0.8 ==> VerifiedSuccess(progress) && !BorderSuccess(progress)
  {
  }
}
