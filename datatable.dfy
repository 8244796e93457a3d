/** The rendering decisions of one company table: the key under which a cell
    is looked up in the highlight map, the status a cell gets, the colours a
    status selects, which correction applies to a cell, which value the cell
    shows while a correction plays, and the per-row entrance delay and
    highlight. Layout, the spring that animates a row and the two opacity
    ramps are outside the model; their outputs are parameters or are named
    by `Fade`. */
module DataTable {
  import opened Util
  import opened Data

  datatype CellStatus = Match | Mismatch | Corrected | Neutral

  /** The palette entries a cell can use. */
  datatype Colour = TextPrimary | TextSecondary | Success | Error | SuccessDim | ErrorDim | Transparent

  /** Which opacity ramp the shown value follows: none (fully opaque), the
      old value fading out over progress 0.2 .. 0.5, or the new value fading
      in over progress 0.5 .. 0.8. */
  datatype Fade = Opaque | FadeOutOld | FadeInNew

  datatype CorrectionEntry = CorrectionEntry(row: int, columnIndex: int, oldValue: string, newValue: string)

  /** Row background: the highlight colour, or the even / odd stripe. */
  datatype RowShade = HighlightShade | EvenShade | OddShade

  /** `cellKey(row, col)`: the two indices in decimal, joined by a dash. */
  function CellKey(row: nat, col: nat): string {
    NatToString(row) + "-" + NatToString(col)
  }

  /** The dash of a cell key sits right after the row's digits. */
  lemma CellKeyShape(row: nat, col: nat)
    ensures var k := CellKey(row, col); var n := |NatToString(row)|;
      n < |k| && k[n] == '-' && k[..n] == NatToString(row) && k[n + 1..] == NatToString(col)
      && forall i :: 0 <= i < n ==> k[i] != '-'
  {
  }

  /** Distinct cells have distinct keys, so the highlight map never
      confuses two cells. */
  lemma CellKeyInjective(r1: nat, c1: nat, r2: nat, c2: nat)
    ensures CellKey(r1, c1) == CellKey(r2, c2) <==> r1 == r2 && c1 == c2
  {
    if CellKey(r1, c1) == CellKey(r2, c2) {
      var k := CellKey(r1, c1);
      var n1, n2 := |NatToString(r1)|, |NatToString(r2)|;
      CellKeyShape(r1, c1);
      CellKeyShape(r2, c2);
      assert n1 == n2;
      NatToStringInjective(r1, r2);
      NatToStringInjective(c1, c2);
    }
  }

  /** `cellHighlights[cellKey(row, col)] ?? "neutral"`. */
  function StatusOf(highlights: map<string, CellStatus>, row: nat, col: nat): (s: CellStatus)
    ensures CellKey(row, col) in highlights ==> s == highlights[CellKey(row, col)]
    ensures CellKey(row, col) !in highlights ==> s == Neutral
  {
    var k := CellKey(row, col);
    if k in highlights then highlights[k] else Neutral
  }

  /** Text colour of a cell: green for a match or a correction, red for a
      mismatch, otherwise white in the name column and grey elsewhere. */
  function TextColour(status: CellStatus, col: nat): (c: Colour)
    ensures c == Success <==> status == Match || status == Corrected
    ensures c == Error <==> status == Mismatch
    ensures status == Neutral ==> c == (if col == 0 then TextPrimary else TextSecondary)
  {
    if status == Match || status == Corrected then Success
    else if status == Mismatch then Error
    else if col == 0 then TextPrimary
    else TextSecondary
  }

  /** Background of the status badge behind the value. */
  function BadgeColour(status: CellStatus): (c: Colour)
    ensures c == SuccessDim <==> status == Match || status == Corrected
    ensures c == ErrorDim <==> status == Mismatch
    ensures c == Transparent <==> status == Neutral
  {
    match status
    case Match => SuccessDim
    case Corrected => SuccessDim
    case Mismatch => ErrorDim
    case Neutral => Transparent
  }

  /** Border of the status badge: the same hue as the text for a match or a
      mismatch. */
  function BorderColour(status: CellStatus): (c: Colour)
    ensures status != Neutral ==> c == TextColour(status, 1)
    ensures c == Transparent <==> status == Neutral
  {
    match status
    case Match => Success
    case Corrected => Success
    case Mismatch => Error
    case Neutral => Transparent
  }

  predicate CorrectsCell(e: CorrectionEntry, row: int, col: int) {
    e.row == row && e.columnIndex == col
  }

  /** Index of the entry `corrections.find(...)` returns for a cell. */
  function CorrectionFor(corrections: seq<CorrectionEntry>, row: int, col: int): (r: Option<nat>)
    ensures r.Some? ==> r.value < |corrections| && CorrectsCell(corrections[r.value], row, col)
    ensures r.Some? ==> forall j :: 0 <= j < r.value ==> !CorrectsCell(corrections[j], row, col)
    ensures r.None? <==> forall j :: 0 <= j < |corrections| ==> !CorrectsCell(corrections[j], row, col)
  {
    FindIndex(corrections, (e: CorrectionEntry) => CorrectsCell(e, row, col))
  }

  /** The value a cell shows: its own value unless a correction applies and
      has started; then the old value until progress 0.5, the new one from
      there on. */
  function ShownValue(row: Company, col: nat, correction: Option<CorrectionEntry>, progress: real): (v: string)
    requires col < |COLUMN_KEYS|
    ensures correction.None? || progress <= 0.0 ==> v == CellAt(row, col)
    ensures correction.Some? && 0.0 < progress < 0.5 ==> v == correction.value.oldValue
    ensures correction.Some? && progress >= 0.5 ==> v == correction.value.newValue
  {
    if correction.Some? && progress > 0.0 then
      if progress < 0.5 then correction.value.oldValue else correction.value.newValue
    else CellAt(row, col)
  }

  /** Which opacity ramp the shown value follows. */
  function ShownFade(correction: Option<CorrectionEntry>, progress: real): (f: Fade)
    ensures f == Opaque <==> correction.None? || progress <= 0.0
    ensures f == FadeOutOld <==> correction.Some? && 0.0 < progress < 0.5
    ensures f == FadeInNew <==> correction.Some? && progress >= 0.5
  {
    if correction.Some? && progress > 0.0 then
      if progress < 0.5 then FadeOutOld else FadeInNew
    else Opaque
  }

  /** One cell of the table, with its locals assigned as the component
      assigns them: defaults first, then overridden by the status and by an
      applicable correction. */
  method RenderCell(highlights: map<string, CellStatus>, corrections: seq<CorrectionEntry>,
                    row: Company, rowIndex: nat, colIndex: nat, correctionProgress: real)
    returns (status: CellStatus, textColor: Colour, bgColor: Colour, borderColor: Colour,
             displayValue: string, fade: Fade)
    requires colIndex < |COLUMN_KEYS|
    ensures status == StatusOf(highlights, rowIndex, colIndex)
    ensures textColor == TextColour(status, colIndex)
    ensures bgColor == BadgeColour(status) && borderColor == BorderColour(status)
    ensures var i := CorrectionFor(corrections, rowIndex, colIndex);
      var correction := if i.Some? then Some(corrections[i.value]) else None;
      displayValue == ShownValue(row, colIndex, correction, correctionProgress)
      && fade == ShownFade(correction, correctionProgress)
  {
    var key := CellKey(rowIndex, colIndex);
    status := if key in highlights then highlights[key] else Neutral;
    var found := FindIndex(corrections, (e: CorrectionEntry) => e.row == rowIndex && e.columnIndex == colIndex);

    textColor := if colIndex == 0 then TextPrimary else TextSecondary;
    bgColor := Transparent;
    borderColor := Transparent;
    if status == Match || status == Corrected {
      textColor := Success;
      bgColor := SuccessDim;
      borderColor := Success;
    } else if status == Mismatch {
      textColor := Error;
      bgColor := ErrorDim;
      borderColor := Error;
    }

    displayValue := Field(row, COLUMN_KEYS[colIndex]);
    fade := Opaque;
    if found.Some? && correctionProgress > 0.0 {
      var correction := corrections[found.value];
      if correctionProgress < 0.5 {
        displayValue := correction.oldValue;
        fade := FadeOutOld;
      } else {
        displayValue := correction.newValue;
        fade := FadeInNew;
      }
    }
  }

  /** A fixture for `CorrectedTableShowsReportFigures`: the corrections that
      would replace each annotated Bloomberg figure by the figure from the
      reports. No component of the repository builds these. */
  function CorrectionsOf(ms: seq<MismatchInfo>): seq<CorrectionEntry> {
    seq(|ms|, i requires 0 <= i < |ms| => CorrectionEntry(ms[i].row, ms[i].columnIndex, ms[i].excelValue, ms[i].pdfValue))
  }

  /** With the annotations applied as corrections, the Bloomberg table shows
      the reports' figure in every cell once the correction has passed its
      midpoint, and the Bloomberg figure before it starts. */
  lemma CorrectedTableShowsReportFigures(r: nat, c: nat, progress: real)
    requires r < |EXCEL_DATA| && c < |COLUMN_KEYS|
    ensures var cs := CorrectionsOf(MISMATCHES);
      var i := CorrectionFor(cs, r, c);
      var correction := if i.Some? then Some(cs[i.value]) else None;
      (progress >= 0.5 ==> ShownValue(EXCEL_DATA[r], c, correction, progress) == CellAt(PDF_DATA[r], c))
      && (progress <= 0.0 ==> ShownValue(EXCEL_DATA[r], c, correction, progress) == CellAt(EXCEL_DATA[r], c))
  {
    var cs := CorrectionsOf(MISMATCHES);
    assert |cs| == |MISMATCHES|;
    assert forall k :: 0 <= k < |cs| ==> cs[k] == CorrectionEntry(
      MISMATCHES[k].row, MISMATCHES[k].columnIndex, MISMATCHES[k].excelValue, MISMATCHES[k].pdfValue);
    var i := CorrectionFor(cs, r, c);
    DifferencesAreAnnotated();
    MismatchesWellFormed();
    if i.Some? {
      var m := MISMATCHES[i.value];
      assert WellFormedMismatch(m);
      assert m.row == r && m.columnIndex == c;
      assert cs[i.value].newValue == Field(PDF_DATA[r], COLUMN_KEYS[c]);
    }
  }

  /** `delay`: rows enter 8 frames apart when rows are animated. */
  function RowDelay(animateRows: bool, rowIndex: nat): (d: nat)
    ensures animateRows ==> d == rowIndex * 8
    ensures !animateRows ==> d == 0
  {
    if animateRows then rowIndex * 8 else 0
  }

  /** `rowSpring`: the spring output when rows are animated, else 1. */
  function RowFactor(animateRows: bool, springValue: real): (f: real)
    ensures !animateRows ==> f == 1.0
    ensures animateRows ==> f == springValue
  {
    if animateRows then springValue else 1.0
  }

  /** Later rows never enter before earlier ones. */
  lemma RowDelayMonotone(animateRows: bool, i: nat, j: nat)
    requires i < j
    ensures RowDelay(animateRows, i) <= RowDelay(animateRows, j)
    ensures animateRows ==> RowDelay(animateRows, j) - RowDelay(animateRows, i) == 8 * (j - i)
  {
  }

  /** `highlightRow === rowIndex`; an undefined `highlightRow` matches no row. */
  function IsHighlighted(highlightRow: Option<int>, rowIndex: nat): (b: bool)
    ensures b <==> highlightRow.Some? && highlightRow.value == rowIndex
  {
    highlightRow == Some(rowIndex as int)
  }

  /** The highlight wins over the stripe; stripes alternate by row parity. */
  function RowBackground(highlightRow: Option<int>, rowIndex: nat): (s: RowShade)
    ensures s == HighlightShade <==> IsHighlighted(highlightRow, rowIndex)
    ensures s == EvenShade <==> !IsHighlighted(highlightRow, rowIndex) && rowIndex % 2 == 0
    ensures s == OddShade <==> !IsHighlighted(highlightRow, rowIndex) && rowIndex % 2 == 1
  {
    if IsHighlighted(highlightRow, rowIndex) then HighlightShade
    else if rowIndex % 2 == 0 then EvenShade
    else OddShade
  }

  /** At most one row of a table is highlighted at a time. */
  lemma AtMostOneHighlightedRow(highlightRow: Option<int>, i: nat, j: nat)
    requires IsHighlighted(highlightRow, i) && IsHighlighted(highlightRow, j)
    ensures i == j
  {
  }
}
