/** The side-by-side comparison: as `revealProgress` grows, the numeric cells
    of both tables are revealed one by one in row-major order, the Bloomberg
    cell red where an annotation marks a difference and green otherwise, the
    report cell always green; a counter shows how many annotated differences
    are already revealed. The springs that slide the tables in are outside
    the model. */
module ComparisonView {
  import opened Util
  import opened Data
  import opened DataTable

  /** `totalCells`: all cells of one table, the name column included. */
  const TOTAL_CELLS: nat := |EXCEL_DATA| * 5

  /** The numeric cells the reveal loop visits: columns 1 .. 4 of every row. */
  const NUMERIC_CELLS: nat := |EXCEL_DATA| * 4

  /** `progressPerCell`. */
  const PROGRESS_PER_CELL: real := 1.0 / (TOTAL_CELLS as real)

  /** `cellIndex * progressPerCell`: the progress a cell needs to exceed. */
  function CellThreshold(cellIndex: int): real {
    (cellIndex as real) * PROGRESS_PER_CELL
  }

  /** Row and column of the numeric cell visited `i`-th (row-major order),
      and back. */
  function RowOf(i: nat): nat { i / 4 }
  function ColOf(i: nat): nat { i % 4 + 1 }
  function CellIndex(row: int, col: int): int { row * 4 + (col - 1) }

  /** The key of the numeric cell visited `i`-th. */
  function KeyOf(i: nat): string { CellKey(RowOf(i), ColOf(i)) }

  /** `MISMATCHES.find(m => m.row === row && m.columnIndex === col)`. */
  function MismatchFor(row: int, col: int): (r: Option<nat>)
    ensures r.Some? <==> Annotated(row, col)
    ensures r.Some? ==> r.value < |MISMATCHES| && MISMATCHES[r.value].row == row && MISMATCHES[r.value].columnIndex == col
  {
    FindIndex(MISMATCHES, (m: MismatchInfo) => m.row == row && m.columnIndex == col)
  }

  /** The status a revealed Bloomberg cell gets. */
  function ExcelStatus(row: int, col: int): (s: CellStatus)
    ensures s == Mismatch <==> Annotated(row, col)
    ensures s != Mismatch ==> s == Match
  {
    if MismatchFor(row, col).Some? then Mismatch else Match
  }

  /** The Bloomberg highlight map after the loop has visited the first `n`
      numeric cells. */
  function ExcelUpTo(p: real, n: nat): map<string, CellStatus> {
    if n == 0 then map[]
    else
      var prev := ExcelUpTo(p, n - 1);
      if p > CellThreshold(n - 1) then prev[KeyOf(n - 1) := ExcelStatus(RowOf(n - 1), ColOf(n - 1))] else prev
  }

  /** The report highlight map after the loop has visited the first `n`
      numeric cells. */
  function PdfUpTo(p: real, n: nat): map<string, CellStatus> {
    if n == 0 then map[]
    else
      var prev := PdfUpTo(p, n - 1);
      if p > CellThreshold(n - 1) then prev[KeyOf(n - 1) := Match] else prev
  }

  function ExcelHighlights(p: real): map<string, CellStatus> { ExcelUpTo(p, NUMERIC_CELLS) }
  function PdfHighlights(p: real): map<string, CellStatus> { PdfUpTo(p, NUMERIC_CELLS) }

  /** The cell is revealed at progress `p`. */
  predicate Revealed(p: real, row: int, col: int) {
    0 <= row < |EXCEL_DATA| && 1 <= col < 5 && p > CellThreshold(CellIndex(row, col))
  }

  /** The keys of every cell of a table, the name column included. */
  function TableKeys(): set<string> {
    set r: nat, c: nat | r < |EXCEL_DATA| && c < 5 :: CellKey(r, c)
  }

  /** The keys of the first `n` numeric cells. */
  function KeysBelow(n: nat): set<string> {
    set i: nat | i < n :: KeyOf(i)
  }

  /** The entries of a map whose status is `"mismatch"`. */
  function MismatchKeys(m: map<string, CellStatus>): set<string> {
    set k | k in m && m[k] == Mismatch
  }

  /** `mismatchCount`: the annotations whose cell is revealed. */
  function MismatchCount(p: real): nat {
    |Filter(MISMATCHES, (m: MismatchInfo) => p > CellThreshold(m.row * 4 + (m.columnIndex - 1)))|
  }

  /** The cell count, and each threshold as a fraction of 25; in particular
      the first cell's threshold is 0. */
  lemma ThresholdValues()
    ensures TOTAL_CELLS == 25 && NUMERIC_CELLS == 20
    ensures forall i: int :: CellThreshold(i) == (i as real) / 25.0
  {
  }

  /** Thresholds grow with the cell index. */
  lemma ThresholdMonotone(i: int, j: int)
    requires i <= j
    ensures CellThreshold(i) <= CellThreshold(j)
  {
    ThresholdValues();
  }

  /** Visit order and `(row, col)` are two views of the same numeric cell. */
  lemma IndexRoundTrip(i: nat)
    ensures RowOf(i) * 4 + ColOf(i) - 1 == i && 1 <= ColOf(i) < 5
    ensures CellIndex(RowOf(i), ColOf(i)) == i
    ensures i < NUMERIC_CELLS ==> RowOf(i) < |EXCEL_DATA|
  {
  }

  /** A numeric cell's place in the visit order leads back to it. */
  lemma CellOfIndex(row: nat, col: nat)
    requires 1 <= col < 5
    ensures CellIndex(row, col) >= 0
    ensures RowOf(CellIndex(row, col)) == row && ColOf(CellIndex(row, col)) == col
  {
  }

  lemma KeyOfInjective(i: nat, j: nat)
    ensures KeyOf(i) == KeyOf(j) <==> i == j
  {
    CellKeyInjective(RowOf(i), ColOf(i), RowOf(j), ColOf(j));
    IndexRoundTrip(i);
    IndexRoundTrip(j);
  }

  /** After `n` visits both maps have the same keys, all of them keys of
      visited cells, and every report entry is a match. */
  lemma {:induction false} UpToKeys(p: real, n: nat)
    ensures ExcelUpTo(p, n).Keys == PdfUpTo(p, n).Keys
    ensures ExcelUpTo(p, n).Keys <= KeysBelow(n)
    ensures forall k :: k in PdfUpTo(p, n) ==> PdfUpTo(p, n)[k] == Match
  {
    if n > 0 {
      UpToKeys(p, n - 1);
      assert KeysBelow(n) == KeysBelow(n - 1) + {KeyOf(n - 1)};
    }
  }

  /** After `n` visits the key of the `j`-th cell is present exactly when
      that cell was visited and its threshold is exceeded, and it carries
      the cell's status. */
  lemma {:induction false} UpToCell(p: real, n: nat, j: nat)
    ensures KeyOf(j) in ExcelUpTo(p, n) <==> j < n && p > CellThreshold(j)
    ensures KeyOf(j) in ExcelUpTo(p, n) ==> ExcelUpTo(p, n)[KeyOf(j)] == ExcelStatus(RowOf(j), ColOf(j))
  {
    if n > 0 {
      UpToCell(p, n - 1, j);
      KeyOfInjective(n - 1, j);
    }
  }

  /** `UpToCell` for every cell at once, on the finished maps. */
  lemma UpToMeaning(p: real)
    ensures ExcelHighlights(p).Keys == PdfHighlights(p).Keys
    ensures ExcelHighlights(p).Keys <= KeysBelow(NUMERIC_CELLS)
    ensures forall k :: k in PdfHighlights(p) ==> PdfHighlights(p)[k] == Match
    ensures forall i: nat :: i < NUMERIC_CELLS ==>
      (KeyOf(i) in ExcelHighlights(p) <==> p > CellThreshold(i))
    ensures forall i: nat :: i < NUMERIC_CELLS && KeyOf(i) in ExcelHighlights(p) ==>
      ExcelHighlights(p)[KeyOf(i)] == ExcelStatus(RowOf(i), ColOf(i))
  {
    UpToKeys(p, NUMERIC_CELLS);
    forall i: nat | i < NUMERIC_CELLS
      ensures KeyOf(i) in ExcelHighlights(p) <==> p > CellThreshold(i)
      ensures KeyOf(i) in ExcelHighlights(p) ==> ExcelHighlights(p)[KeyOf(i)] == ExcelStatus(RowOf(i), ColOf(i))
    {
      UpToCell(p, NUMERIC_CELLS, i);
    }
  }

  /** The highlight maps in terms of `(row, col)`: exactly the revealed
      numeric cells have entries, the name column never does, a Bloomberg
      entry is `"mismatch"` exactly for annotated cells, every report entry
      is `"match"`, and both maps have the same keys. */
  lemma HighlightsMeaning(p: real)
    ensures ExcelHighlights(p).Keys == PdfHighlights(p).Keys <= TableKeys()
    ensures forall r: nat, c: nat :: r < |EXCEL_DATA| && c < 5 ==>
      (CellKey(r, c) in ExcelHighlights(p) <==> Revealed(p, r, c))
    ensures forall r: nat :: r < |EXCEL_DATA| ==> CellKey(r, 0) !in ExcelHighlights(p)
    ensures forall r: nat, c: nat :: CellKey(r, c) in ExcelHighlights(p) ==>
      (ExcelHighlights(p)[CellKey(r, c)] == Mismatch <==> Annotated(r, c))
      && (ExcelHighlights(p)[CellKey(r, c)] != Mismatch ==> ExcelHighlights(p)[CellKey(r, c)] == Match)
    ensures forall k :: k in PdfHighlights(p) ==> PdfHighlights(p)[k] == Match
  {
    var e := ExcelHighlights(p);
    UpToMeaning(p);
    forall k | k in e ensures k in TableKeys() {
      var i: nat :| i < NUMERIC_CELLS && k == KeyOf(i);
      IndexRoundTrip(i);
    }
    forall r: nat, c: nat | CellKey(r, c) in e
      ensures c != 0 && r < |EXCEL_DATA| && c < 5
      ensures e[CellKey(r, c)] == Mismatch <==> Annotated(r, c)
      ensures e[CellKey(r, c)] != Mismatch ==> e[CellKey(r, c)] == Match
    {
      var i: nat :| i < NUMERIC_CELLS && CellKey(r, c) == KeyOf(i);
      CellKeyInjective(r, c, RowOf(i), ColOf(i));
      IndexRoundTrip(i);
    }
    forall r: nat, c: nat | r < |EXCEL_DATA| && 1 <= c < 5
      ensures CellKey(r, c) in e <==> Revealed(p, r, c)
    {
      var i: nat := CellIndex(r, c);
      assert RowOf(i) == r && ColOf(i) == c;
    }
  }

  /** What the two tables of the comparison show in each cell: unrevealed
      cells are neutral; a revealed Bloomberg cell is red exactly when it is
      annotated and green otherwise; a revealed report cell is green. */
  lemma ComparisonCellStatus(p: real, r: nat, c: nat)
    requires r < |EXCEL_DATA| && c < 5
    ensures StatusOf(ExcelHighlights(p), r, c) ==
      (if !Revealed(p, r, c) then Neutral else if Annotated(r, c) then Mismatch else Match)
    ensures StatusOf(PdfHighlights(p), r, c) == (if Revealed(p, r, c) then Match else Neutral)
  {
    HighlightsMeaning(p);
  }

  /** The revealed cells form a prefix of the row-major order. */
  lemma RevealedPrefix(p: real, i: nat, j: nat)
    requires j <= i < NUMERIC_CELLS
    requires KeyOf(i) in ExcelHighlights(p)
    ensures KeyOf(j) in ExcelHighlights(p) && KeyOf(j) in PdfHighlights(p)
  {
    UpToMeaning(p);
    ThresholdMonotone(j, i);
  }

  /** More progress reveals more: every entry present at `p` is present at
      `q >= p` with the same status. */
  lemma RevealMonotone(p: real, q: real)
    requires p <= q
    ensures ExcelHighlights(p).Keys <= ExcelHighlights(q).Keys
    ensures PdfHighlights(p).Keys <= PdfHighlights(q).Keys
    ensures forall k :: k in ExcelHighlights(p) ==> ExcelHighlights(q)[k] == ExcelHighlights(p)[k]
    ensures forall k :: k in PdfHighlights(p) ==> PdfHighlights(q)[k] == PdfHighlights(p)[k]
  {
    UpToMeaning(p);
    UpToMeaning(q);
    forall k | k in ExcelHighlights(p)
      ensures k in ExcelHighlights(q) && ExcelHighlights(q)[k] == ExcelHighlights(p)[k]
    {
      var i: nat :| i < NUMERIC_CELLS && k == KeyOf(i);
    }
  }

  /** Before the reveal starts nothing is highlighted: the test is strict
      and the first cell's threshold is 0. */
  lemma NothingRevealedAtStart(p: real)
    requires p <= 0.0
    ensures ExcelHighlights(p) == map[] && PdfHighlights(p) == map[]
    ensures MismatchCount(p) == 0
  {
    UpToMeaning(p);
    ThresholdValues();
    forall k | k in ExcelHighlights(p) ensures false {
    }
    MismatchCountCases(p);
  }

  /** Past the last numeric cell's threshold (19/25, so in particular at
      progress 1) every numeric cell is revealed and the counter shows every
      annotation. */
  lemma EverythingRevealedAtEnd(p: real)
    requires p > 19.0 / 25.0
    ensures forall i: nat :: i < NUMERIC_CELLS ==> KeyOf(i) in ExcelHighlights(p) && KeyOf(i) in PdfHighlights(p)
    ensures ExcelHighlights(p).Keys == KeysBelow(NUMERIC_CELLS)
    ensures MismatchCount(p) == |MISMATCHES|
  {
    ThresholdValues();
    UpToKeys(p, NUMERIC_CELLS);
    forall i: nat | i < NUMERIC_CELLS
      ensures KeyOf(i) in ExcelHighlights(p)
    {
      UpToCell(p, NUMERIC_CELLS, i);
    }
    MismatchCountCases(p);
  }

  /** The same, cell by cell: all 20 numeric cells of both tables have an
      entry. */
  lemma AllNumericCellsRevealedAtEnd(p: real, r: nat, c: nat)
    requires p > 19.0 / 25.0
    requires r < |EXCEL_DATA| && 1 <= c < 5
    ensures CellKey(r, c) in ExcelHighlights(p) && CellKey(r, c) in PdfHighlights(p)
  {
    EverythingRevealedAtEnd(p);
    CellOfIndex(r, c);
    assert KeyOf(CellIndex(r, c)) == CellKey(r, c);
  }

  /** The counter's value, case by case over the three annotated cells
      (cell indices 9, 14 and 19). */
  lemma MismatchCountCases(p: real)
    ensures MismatchCount(p) == (if p > CellThreshold(9) then 1 else 0)
      + (if p > CellThreshold(14) then 1 else 0) + (if p > CellThreshold(19) then 1 else 0)
  {
    assert MISMATCHES[1..] == [MISMATCHES[1], MISMATCHES[2]];
    assert MISMATCHES[1..][1..] == [MISMATCHES[2]];
    assert [MISMATCHES[2]][1..] == [];
  }

  /** A revealed Bloomberg cell is red exactly at cell indices 9, 14, 19. */
  lemma MismatchIndices(i: nat)
    requires i < NUMERIC_CELLS
    ensures ExcelStatus(RowOf(i), ColOf(i)) == Mismatch <==> i == 9 || i == 14 || i == 19
  {
    AnnotatedCells(RowOf(i), ColOf(i));
    IndexRoundTrip(i);
  }

  /** The `i`-th numeric cell is marked `"mismatch"` exactly when it is
      revealed and is one of the annotated cells. */
  lemma MismatchKeyMember(p: real, i: nat)
    requires i < NUMERIC_CELLS
    ensures KeyOf(i) in MismatchKeys(ExcelHighlights(p)) <==>
      p > CellThreshold(i) && (i == 9 || i == 14 || i == 19)
  {
    UpToCell(p, NUMERIC_CELLS, i);
    MismatchIndices(i);
  }

  /** Only the three annotated cells can ever be marked `"mismatch"`. */
  lemma MismatchKeysWithin(p: real)
    ensures MismatchKeys(ExcelHighlights(p)) <= {KeyOf(9), KeyOf(14), KeyOf(19)}
  {
    UpToKeys(p, NUMERIC_CELLS);
    forall k | k in MismatchKeys(ExcelHighlights(p)) ensures k in {KeyOf(9), KeyOf(14), KeyOf(19)} {
      assert k in KeysBelow(NUMERIC_CELLS);
      var i: nat :| i < NUMERIC_CELLS && k == KeyOf(i);
      MismatchKeyMember(p, i);
    }
  }

  /** The counter equals the number of red Bloomberg cells, because both
      use the same threshold. */
  lemma MismatchCountMatchesHighlights(p: real)
    ensures MismatchCount(p) == |MismatchKeys(ExcelHighlights(p))|
  {
    MismatchCountCases(p);
    MismatchKeysWithin(p);
    MismatchKeyMember(p, 9);
    MismatchKeyMember(p, 14);
    MismatchKeyMember(p, 19);
    KeyOfInjective(9, 14);
    KeyOfInjective(9, 19);
    KeyOfInjective(14, 19);
    CardinalityOfThree(MismatchKeys(ExcelHighlights(p)), KeyOf(9), KeyOf(14), KeyOf(19));
  }

  /** The loop's threshold `cellIndex * progressPerCell` is the cell's
      threshold. */
  lemma LoopThreshold(cellIndex: int, progressPerCell: real)
    requires progressPerCell == PROGRESS_PER_CELL
    ensures (cellIndex as real) * progressPerCell == CellThreshold(cellIndex)
  {
  }

  /** One visit of the loop body, on cell `(row, col)` with visit index `n`:
      maps equal to the specification after `n` visits, updated at the
      cell's key when its threshold is exceeded, equal it after `n + 1`. */
  lemma VisitStep(p: real, n: nat, row: nat, col: nat,
                  excel: map<string, CellStatus>, pdf: map<string, CellStatus>)
    requires 1 <= col < 5 && n == row * 4 + (col - 1)
    requires excel == ExcelUpTo(p, n) && pdf == PdfUpTo(p, n)
    ensures p > CellThreshold(n) && MismatchFor(row, col).Some? ==>
      excel[CellKey(row, col) := Mismatch] == ExcelUpTo(p, n + 1)
    ensures p > CellThreshold(n) && MismatchFor(row, col).None? ==>
      excel[CellKey(row, col) := Match] == ExcelUpTo(p, n + 1)
    ensures p > CellThreshold(n) ==> pdf[CellKey(row, col) := Match] == PdfUpTo(p, n + 1)
    ensures p <= CellThreshold(n) ==> excel == ExcelUpTo(p, n + 1) && pdf == PdfUpTo(p, n + 1)
  {
    CellOfIndex(row, col);
  }

  /** Both maps equal the specification after `n` visits. */
  predicate AfterVisits(p: real, n: nat, excel: map<string, CellStatus>, pdf: map<string, CellStatus>) {
    excel == ExcelUpTo(p, n) && pdf == PdfUpTo(p, n)
  }

  lemma SameVisits(p: real, m: nat, n: nat, excel: map<string, CellStatus>, pdf: map<string, CellStatus>)
    requires AfterVisits(p, m, excel, pdf) && m == n
    ensures AfterVisits(p, n, excel, pdf)
  {
  }

  /** The body of the column loop, on cell `(row, col)`. */
  method VisitCell(revealProgress: real, row: nat, col: nat, progressPerCell: real, ghost visited: nat,
                   excel: map<string, CellStatus>, pdf: map<string, CellStatus>)
    returns (excelHighlights: map<string, CellStatus>, pdfHighlights: map<string, CellStatus>)
    requires 1 <= col < 5 && visited == row * 4 + (col - 1) && progressPerCell == PROGRESS_PER_CELL
    requires AfterVisits(revealProgress, visited, excel, pdf)
    ensures AfterVisits(revealProgress, visited + 1, excelHighlights, pdfHighlights)
  {
    excelHighlights, pdfHighlights := excel, pdf;
    var cellIndex := row * 4 + (col - 1);
    var cellThreshold := (cellIndex as real) * progressPerCell;
    LoopThreshold(cellIndex, progressPerCell);
    VisitStep(revealProgress, visited, row, col, excelHighlights, pdfHighlights);
    if revealProgress > cellThreshold {
      var mismatch := MismatchFor(row, col);
      var key := CellKey(row, col);
      if mismatch.Some? {
        excelHighlights := excelHighlights[key := Mismatch];
        pdfHighlights := pdfHighlights[key := Match];
      } else {
        excelHighlights := excelHighlights[key := Match];
        pdfHighlights := pdfHighlights[key := Match];
      }
    }
  }

  /** One pass of the column loop, over the numeric cells of `row`. */
  method VisitRow(revealProgress: real, row: nat, progressPerCell: real,
                  excel: map<string, CellStatus>, pdf: map<string, CellStatus>)
    returns (excelHighlights: map<string, CellStatus>, pdfHighlights: map<string, CellStatus>)
    requires progressPerCell == PROGRESS_PER_CELL
    requires AfterVisits(revealProgress, row * 4, excel, pdf)
    ensures AfterVisits(revealProgress, row * 4 + 4, excelHighlights, pdfHighlights)
  {
    excelHighlights, pdfHighlights := excel, pdf;
    ghost var visited := row * 4;
    var col := 1;
    while col < 5
      invariant 1 <= col <= 5 && visited == row * 4 + (col - 1)
      invariant AfterVisits(revealProgress, visited, excelHighlights, pdfHighlights)
    {
      excelHighlights, pdfHighlights :=
        VisitCell(revealProgress, row, col, progressPerCell, visited, excelHighlights, pdfHighlights);
      visited := visited + 1;
      col := col + 1;
    }
    SameVisits(revealProgress, visited, row * 4 + 4, excelHighlights, pdfHighlights);
  }

  /** The reveal loop of the component: a row loop over the company rows
      and a column loop over the four numeric columns, writing both maps
      in place. */
  method BuildHighlights(revealProgress: real)
    returns (excelHighlights: map<string, CellStatus>, pdfHighlights: map<string, CellStatus>)
    ensures excelHighlights == ExcelHighlights(revealProgress)
    ensures pdfHighlights == PdfHighlights(revealProgress)
  {
    excelHighlights := map[];
    pdfHighlights := map[];
    var totalCells := |EXCEL_DATA| * 5;
    var progressPerCell := 1.0 / (totalCells as real);
    assert progressPerCell == PROGRESS_PER_CELL;
    var row := 0;
    while row < |EXCEL_DATA|
      invariant 0 <= row <= |EXCEL_DATA|
      invariant AfterVisits(revealProgress, row * 4, excelHighlights, pdfHighlights)
    {
      excelHighlights, pdfHighlights := VisitRow(revealProgress, row, progressPerCell, excelHighlights, pdfHighlights);
      row := row + 1;
    }
  }
}
